/**
 The canonical form of a document: keys and texts normalised, keys in order, the
 version inserted, and the result printed so that nothing else prints the same.
 */
module CanonicalForm {
  import opened Wrappers
  import opened CanonicalText

  datatype Scalar = Str(text: Text) | Bool(flag: bool) | Unsupported

  datatype Value =
    | Leaf(scalar: Scalar)
    | Arr(items: seq<Value>)
    | Rec(fields: seq<(Text, Value)>)   // own properties, in the order they were added

  datatype CanonicalError = UnsupportedValue | KeyCollision | WrongVersion | NotARecord | Cyclic

  /** Normalisation form C: any function that changes nothing the second time, and no ASCII text at all. */
  type Normalizer = Text -> Text

  ghost predicate IsNormalizer(nfc: Normalizer) {
    && (forall t :: nfc(nfc(t)) == nfc(t))
    && (forall t :: (forall i :: 0 <= i < |t| ==> t[i] < 128) ==> nfc(t) == t)
  }

  /** The ASCII text "specVersion", and the text "1". */
  const SPEC_VERSION: Text := [115, 112, 101, 99, 86, 101, 114, 115, 105, 111, 110]
  const VERSION_ONE: Text := [49]

  // ---- The entries of a record ----

  function KeysOf<T>(entries: seq<(Text, T)>): (keys: seq<Text>)
    ensures |keys| == |entries| && forall i :: 0 <= i < |keys| ==> keys[i] == entries[i].0
  {
    seq(|entries|, i requires 0 <= i < |entries| => entries[i].0)
  }

  /** The own properties under their normalised keys; two keys that normalise alike are refused. */
  function Entries<T>(fields: seq<(Text, T)>, nfc: Normalizer): Result<seq<(Text, T)>, CanonicalError> {
    if fields == [] then Ok([])
    else
      var sofar :- Entries(fields[..|fields| - 1], nfc);
      var key := nfc(fields[|fields| - 1].0);
      if key in KeysOf(sofar) then Err(KeyCollision) else Ok(sofar + [(key, fields[|fields| - 1].1)])
  }

  function InsertEntry<T>(e: (Text, T), s: seq<(Text, T)>): seq<(Text, T)> {
    if s == [] then [e]
    else if Below(e.0, s[0].0) then [e] + s
    else [s[0]] + InsertEntry(e, s[1..])
  }

  function SortedEntries<T>(s: seq<(Text, T)>): seq<(Text, T)> {
    if s == [] then [] else InsertEntry(s[|s| - 1], SortedEntries(s[..|s| - 1]))
  }

  function Find<T>(key: Text, entries: seq<(Text, T)>): Option<T> {
    if entries == [] then None
    else if entries[0].0 == key then Some(entries[0].1)
    else Find(key, entries[1..])
  }

  /** The top-level record must carry version "1", and is given it when it carries none. */
  function Versioned<T(==)>(entries: seq<(Text, T)>, one: T): Result<seq<(Text, T)>, CanonicalError> {
    var found := Find(SPEC_VERSION, entries);
    if found.None? then Ok(SortedEntries(entries + [(SPEC_VERSION, one)]))
    else if found.value != one then Err(WrongVersion)
    else Ok(entries)
  }

  ghost predicate SameEntries<T>(s: seq<(Text, T)>, t: seq<(Text, T)>) {
    && (forall i :: 0 <= i < |s| ==> s[i] in t)
    && (forall i :: 0 <= i < |t| ==> t[i] in s)
  }

  lemma {:induction false} InsertKeeps<T>(e: (Text, T), s: seq<(Text, T)>)
    ensures SameEntries(InsertEntry(e, s), [e] + s)
  {
    if s != [] && !Below(e.0, s[0].0) {
      var rest := InsertEntry(e, s[1..]);
      InsertKeeps(e, s[1..]);
      var out, all := [s[0]] + rest, [e] + s;
      forall i | 0 <= i < |out| ensures out[i] in all {
        if i > 0 {
          assert rest[i - 1] in [e] + s[1..];
        }
      }
      forall i | 0 <= i < |all| ensures all[i] in out {
        if i == 0 {
          assert ([e] + s[1..])[0] in rest;
        } else if i > 1 {
          assert all[i] == ([e] + s[1..])[i - 1];
        }
      }
    }
  }

  lemma {:induction false} SortKeeps<T>(s: seq<(Text, T)>)
    ensures SameEntries(SortedEntries(s), s)
  {
    if s != [] {
      var init, last := s[..|s| - 1], s[|s| - 1];
      var sorted := SortedEntries(init);
      SortKeeps(init);
      InsertKeeps(last, sorted);
      var out := InsertEntry(last, sorted);
      forall i | 0 <= i < |out| ensures out[i] in s {
        var k :| 0 <= k < |[last] + sorted| && ([last] + sorted)[k] == out[i];
        if k > 0 {
          assert sorted[k - 1] in init;
        }
      }
      forall i | 0 <= i < |s| ensures s[i] in out {
        if i == |s| - 1 {
          assert ([last] + sorted)[0] in out;
        } else {
          assert init[i] in sorted;
          var k :| 0 <= k < |sorted| && sorted[k] == init[i];
          assert ([last] + sorted)[k + 1] in out;
        }
      }
    }
  }

  lemma {:induction false} EntriesKeepValues<T>(fields: seq<(Text, T)>, nfc: Normalizer)
    ensures Entries(fields, nfc).Ok? ==>
              forall e :: e in Entries(fields, nfc).value ==>
                            exists i :: 0 <= i < |fields| && e == (nfc(fields[i].0), fields[i].1)
  {
    if fields != [] && Entries(fields, nfc).Ok? {
      var init := fields[..|fields| - 1];
      EntriesKeepValues(init, nfc);
      forall e | e in Entries(fields, nfc).value
        ensures exists i :: 0 <= i < |fields| && e == (nfc(fields[i].0), fields[i].1)
      {
        if e in Entries(init, nfc).value {
          var i :| 0 <= i < |init| && e == (nfc(init[i].0), init[i].1);
          assert e == (nfc(fields[i].0), fields[i].1);
        } else {
          var i := |fields| - 1;
          assert e == (nfc(fields[i].0), fields[i].1);
        }
      }
    }
  }

  // ---- Normalising a tree ----

  /** Every entry's value is part of the record. */
  ghost predicate PartsOf(entries: seq<(Text, Value)>, whole: Value) {
    forall e :: e in entries ==> e.1 < whole
  }

  lemma SortedEntriesAreParts(fields: seq<(Text, Value)>, nfc: Normalizer)
    ensures
      var entries := Entries(fields, nfc);
      entries.Ok? ==> PartsOf(SortedEntries(entries.value), Rec(fields))
  {
    var entries := Entries(fields, nfc);
    if entries.Ok? {
      EntriesKeepValues(fields, nfc);
      SortKeeps(entries.value);
      forall e | e in SortedEntries(entries.value) ensures e.1 < Rec(fields) {
        var i :| 0 <= i < |fields| && e == (nfc(fields[i].0), fields[i].1);
        assert fields[i].1 < Rec(fields);
      }
    }
  }

  function NormalScalar(s: Scalar, nfc: Normalizer): Result<Value, CanonicalError> {
    match s
    case Str(t) => Ok(Leaf(Str(nfc(t))))
    case Bool(b) => Ok(Leaf(Bool(b)))
    case Unsupported => Err(UnsupportedValue)
  }

  function Normal(v: Value, nfc: Normalizer): Result<Value, CanonicalError>
    decreases v, 1, 0
  {
    match v
    case Leaf(s) => NormalScalar(s, nfc)
    case Arr(items) =>
      var normal :- NormalItems(items, v, nfc);
      Ok(Arr(normal))
    case Rec(fields) =>
      var entries :- Entries(fields, nfc);
      SortedEntriesAreParts(fields, nfc);
      var normal :- NormalFields(SortedEntries(entries), v, nfc);
      Ok(Rec(normal))
  }

  function NormalItems(items: seq<Value>, ghost whole: Value, nfc: Normalizer): Result<seq<Value>, CanonicalError>
    requires forall i :: 0 <= i < |items| ==> items[i] < whole
    decreases whole, 0, |items|
  {
    if items == [] then Ok([])
    else
      var before :- NormalItems(items[..|items| - 1], whole, nfc);
      var last :- Normal(items[|items| - 1], nfc);
      Ok(before + [last])
  }

  function NormalFields(entries: seq<(Text, Value)>, ghost whole: Value, nfc: Normalizer)
    : Result<seq<(Text, Value)>, CanonicalError>
    requires PartsOf(entries, whole)
    decreases whole, 0, |entries|
  {
    if entries == [] then Ok([])
    else
      var before :- NormalFields(entries[..|entries| - 1], whole, nfc);
      assert entries[|entries| - 1] in entries;
      var last :- Normal(entries[|entries| - 1].1, nfc);
      Ok(before + [(nfc(entries[|entries| - 1].0), last)])
  }

  // ---- Printing ----

  const COMMA: CodeUnit := 44
  const COLON: CodeUnit := 58
  const TRUE: Text := [116, 114, 117, 101]
  const FALSE: Text := [102, 97, 108, 115, 101]

  function Joined(parts: seq<Text>): Text {
    if parts == [] then []
    else if |parts| == 1 then parts[0]
    else parts[0] + [COMMA] + Joined(parts[1..])
  }

  /** A tree with no value that the document model lacks. */
  predicate Printable(v: Value) {
    match v
    case Leaf(s) => !s.Unsupported?
    case Arr(items) => forall i :: 0 <= i < |items| ==> Printable(items[i])
    case Rec(fields) => forall i :: 0 <= i < |fields| ==> Printable(fields[i].1)
  }

  function PrintScalar(s: Scalar): Text {
    match s
    case Str(t) => Stringified(t)
    case Bool(b) => if b then TRUE else FALSE
    case Unsupported => []
  }

  function Print(v: Value): Text {
    match v
    case Leaf(s) => PrintScalar(s)
    case Arr(items) => [91] + Joined(seq(|items|, i requires 0 <= i < |items| => Print(items[i]))) + [93]
    case Rec(fields) =>
      [123]
      + Joined(seq(|fields|, i requires 0 <= i < |fields| => Stringified(fields[i].0) + [COLON] + Print(fields[i].1)))
      + [125]
  }

  function PrintedItems(items: seq<Value>): (parts: seq<Text>)
    ensures |parts| == |items| && forall i :: 0 <= i < |items| ==> parts[i] == Print(items[i])
  {
    seq(|items|, i requires 0 <= i < |items| => Print(items[i]))
  }

  function PrintedFields(fields: seq<(Text, Value)>): (parts: seq<Text>)
    ensures |parts| == |fields|
    ensures forall i :: 0 <= i < |fields| ==> parts[i] == Stringified(fields[i].0) + [COLON] + Print(fields[i].1)
  {
    seq(|fields|, i requires 0 <= i < |fields| => Stringified(fields[i].0) + [COLON] + Print(fields[i].1))
  }

  lemma PrintOfArray(items: seq<Value>)
    ensures Print(Arr(items)) == [91] + Joined(PrintedItems(items)) + [93]
  {
    assert seq(|items|, i requires 0 <= i < |items| => Print(items[i])) == PrintedItems(items);
  }

  lemma PrintOfRecord(fields: seq<(Text, Value)>)
    ensures Print(Rec(fields)) == [123] + Joined(PrintedFields(fields)) + [125]
  {
    assert seq(|fields|, i requires 0 <= i < |fields| => Stringified(fields[i].0) + [COLON] + Print(fields[i].1))
        == PrintedFields(fields);
  }

  // ---- Nothing else prints the same ----

  /** The first code unit of a print says what kind of value it is. */
  lemma FirstOfPrint(v: Value)
    requires Printable(v)
    ensures Print(v) != []
    ensures
      Print(v)[0] == (match v
                      case Leaf(Str(_)) => 34
                      case Leaf(Bool(b)) => if b then 116 else 102
                      case Leaf(Unsupported) => 0
                      case Arr(_) => 91
                      case Rec(_) => 123)
  {
  }

  lemma JoinedStarts(parts: seq<Text>)
    requires parts != [] && parts[0] != []
    ensures Joined(parts) != [] && Joined(parts)[0] == parts[0][0]
  {
  }

  /** The list after its first part: nothing before the closing bracket, or a comma and the rest. */
  function Tail(parts: seq<Text>, close: CodeUnit, r: Text): Text
    requires parts != []
  {
    if |parts| == 1 then [close] + r else [COMMA] + (Joined(parts[1..]) + [close] + r)
  }

  lemma JoinedIsFirstAndTail(parts: seq<Text>, close: CodeUnit, r: Text)
    requires parts != []
    ensures Joined(parts) + [close] + r == parts[0] + Tail(parts, close, r)
  {
  }

  lemma TailsReadBack(xs: seq<Text>, ys: seq<Text>, close: CodeUnit, r: Text, q: Text)
    requires xs != [] && ys != [] && close != COMMA && Tail(xs, close, r) == Tail(ys, close, q)
    ensures |xs| == 1 <==> |ys| == 1
    ensures |xs| == 1 ==> r == q
    ensures |xs| > 1 ==> Joined(xs[1..]) + [close] + r == Joined(ys[1..]) + [close] + q
  {
    var s, t := Tail(xs, close, r), Tail(ys, close, q);
    assert s[0] == (if |xs| == 1 then close else COMMA) && t[0] == (if |ys| == 1 then close else COMMA);
    assert |xs| == 1 ==> s[1..] == r;
    assert |ys| == 1 ==> t[1..] == q;
    assert |xs| > 1 ==> s[1..] == Joined(xs[1..]) + [close] + r;
    assert |ys| > 1 ==> t[1..] == Joined(ys[1..]) + [close] + q;
  }

  lemma {:induction false} ItemsReadBack(xs: seq<Value>, ys: seq<Value>, r: Text, q: Text, whole: Value)
    requires forall i :: 0 <= i < |xs| ==> xs[i] < whole && Printable(xs[i])
    requires forall i :: 0 <= i < |ys| ==> Printable(ys[i])
    requires Joined(PrintedItems(xs)) + [93] + r == Joined(PrintedItems(ys)) + [93] + q
    ensures xs == ys && r == q
    decreases whole, 0, |xs|
  {
    hide Print, Joined, Printable, Tail;
    var ps, qs := PrintedItems(xs), PrintedItems(ys);
    OpenList(xs, ps, r);
    OpenList(ys, qs, q);
    var s, t := Joined(ps) + [93] + r, Joined(qs) + [93] + q;
    if xs == [] || ys == [] {
      assert xs == [] && ys == [];
      assert s[1..] == r && t[1..] == q;
    } else {
      JoinedIsFirstAndTail(ps, 93, r);
      JoinedIsFirstAndTail(qs, 93, q);
      PrintReadsBack(xs[0], ys[0], Tail(ps, 93, r), Tail(qs, 93, q));
      TailsReadBack(ps, qs, 93, r, q);
      if |xs| > 1 {
        assert ps[1..] == PrintedItems(xs[1..]) && qs[1..] == PrintedItems(ys[1..]);
        ItemsReadBack(xs[1..], ys[1..], r, q, whole);
      }
      assert xs == [xs[0]] + xs[1..] && ys == [ys[0]] + ys[1..];
    }
  }

  /** An empty list closes at once, and no item starts with the closing bracket. */
  lemma OpenList(xs: seq<Value>, parts: seq<Text>, r: Text)
    requires parts == PrintedItems(xs) && forall i :: 0 <= i < |xs| ==> Printable(xs[i])
    ensures (Joined(parts) + [93] + r)[0] == 93 <==> xs == []
    ensures xs == [] ==> Joined(parts) + [93] + r == [93] + r
  {
    if xs != [] {
      FirstOfPrint(xs[0]);
      JoinedStarts(parts);
    }
  }

  lemma {:induction false} FieldsReadBack(xs: seq<(Text, Value)>, ys: seq<(Text, Value)>, r: Text, q: Text,
                                          whole: Value)
    requires forall i :: 0 <= i < |xs| ==> xs[i].1 < whole && Printable(xs[i].1)
    requires forall i :: 0 <= i < |ys| ==> Printable(ys[i].1)
    requires Joined(PrintedFields(xs)) + [125] + r == Joined(PrintedFields(ys)) + [125] + q
    ensures xs == ys && r == q
    decreases whole, 0, |xs|
  {
    hide Print, Joined, Printable, Stringified, Tail;
    var ps, qs := PrintedFields(xs), PrintedFields(ys);
    OpenFields(xs, ps, r);
    OpenFields(ys, qs, q);
    var s, t := Joined(ps) + [125] + r, Joined(qs) + [125] + q;
    if xs == [] || ys == [] {
      assert xs == [] && ys == [];
      assert s[1..] == r && t[1..] == q;
    } else {
      JoinedIsFirstAndTail(ps, 125, r);
      JoinedIsFirstAndTail(qs, 125, q);
      var rest, rest' := Tail(ps, 125, r), Tail(qs, 125, q);
      KeyReadsBack(xs[0], ys[0], rest, rest');
      PrintReadsBack(xs[0].1, ys[0].1, rest, rest');
      TailsReadBack(ps, qs, 125, r, q);
      if |xs| > 1 {
        assert ps[1..] == PrintedFields(xs[1..]) && qs[1..] == PrintedFields(ys[1..]);
        FieldsReadBack(xs[1..], ys[1..], r, q, whole);
      }
      assert xs == [xs[0]] + xs[1..] && ys == [ys[0]] + ys[1..];
    }
  }

  lemma KeyReadsBack(f: (Text, Value), g: (Text, Value), rest: Text, rest': Text)
    requires (Stringified(f.0) + [COLON] + Print(f.1)) + rest == (Stringified(g.0) + [COLON] + Print(g.1)) + rest'
    ensures f.0 == g.0 && Print(f.1) + rest == Print(g.1) + rest'
  {
    hide Print, Stringified;
    var s, t := Print(f.1) + rest, Print(g.1) + rest';
    FieldSplits(f, rest);
    FieldSplits(g, rest');
    QuotedReadsBack(f.0, g.0, [COLON] + s, [COLON] + t);
    assert ([COLON] + s)[1..] == s && ([COLON] + t)[1..] == t;
  }

  lemma FieldSplits(f: (Text, Value), rest: Text)
    ensures (Stringified(f.0) + [COLON] + Print(f.1)) + rest == Stringified(f.0) + ([COLON] + (Print(f.1) + rest))
  {
  }

  lemma OpenFields(xs: seq<(Text, Value)>, parts: seq<Text>, r: Text)
    requires parts == PrintedFields(xs)
    ensures (Joined(parts) + [125] + r)[0] == 125 <==> xs == []
    ensures xs == [] ==> Joined(parts) + [125] + r == [125] + r
  {
    if xs != [] {
      assert parts[0][0] == 34;
      JoinedStarts(parts);
    }
  }

  lemma AfterBracket(items: seq<Value>, r: Text)
    ensures |Print(Arr(items)) + r| > 0
    ensures (Print(Arr(items)) + r)[1..] == Joined(PrintedItems(items)) + [93] + r
  {
    PrintOfArray(items);
  }

  lemma AfterBrace(fields: seq<(Text, Value)>, r: Text)
    ensures |Print(Rec(fields)) + r| > 0
    ensures (Print(Rec(fields)) + r)[1..] == Joined(PrintedFields(fields)) + [125] + r
  {
    PrintOfRecord(fields);
  }

  lemma AfterFlag(b: bool, r: Text)
    ensures |Print(Leaf(Bool(b))) + r| >= if b then 4 else 5
    ensures (Print(Leaf(Bool(b))) + r)[if b then 4 else 5..] == r
  {
  }

  lemma SameKind(v: Value, w: Value, r: Text, q: Text)
    requires Printable(v) && Printable(w) && Print(v) + r == Print(w) + q
    ensures v.Leaf? <==> w.Leaf?
    ensures v.Arr? <==> w.Arr?
    ensures v.Leaf? ==> (v.scalar.Str? <==> w.scalar.Str?) && (v.scalar.Bool? ==> w == v)
    ensures v.Leaf? ==> v.scalar.Str? || v.scalar.Bool?
  {
    FirstOfPrint(v);
    FirstOfPrint(w);
    assert (Print(v) + r)[0] == Print(v)[0] && (Print(w) + q)[0] == Print(w)[0];
  }

  /** Whatever follows two printed values, if the whole reads the same, so do the values and what follows. */
  lemma {:induction false} PrintReadsBack(v: Value, w: Value, r: Text, q: Text)
    requires Printable(v) && Printable(w) && Print(v) + r == Print(w) + q
    ensures v == w && r == q
    decreases v, 1, 0
  {
    SameKind(v, w, r, q);
    if v.Leaf? {
      if v.scalar.Str? {
        QuotedReadsBack(v.scalar.text, w.scalar.text, r, q);
      } else {
        AfterFlag(v.scalar.flag, r);
        AfterFlag(v.scalar.flag, q);
      }
    } else if v.Arr? {
      AfterBracket(v.items, r);
      AfterBracket(w.items, q);
      ItemsReadBack(v.items, w.items, r, q, v);
    } else {
      AfterBrace(v.fields, r);
      AfterBrace(w.fields, q);
      FieldsReadBack(v.fields, w.fields, r, q, v);
    }
  }

  // ---- What normalising does to lists ----

  lemma {:induction false} NormalItemsAre(items: seq<Value>, whole: Value, nfc: Normalizer)
    requires forall i :: 0 <= i < |items| ==> items[i] < whole
    ensures NormalItems(items, whole, nfc).Ok? <==> forall i :: 0 <= i < |items| ==> Normal(items[i], nfc).Ok?
    ensures NormalItems(items, whole, nfc).Ok? ==>
              && |NormalItems(items, whole, nfc).value| == |items|
              && forall i :: 0 <= i < |items| ==> Normal(items[i], nfc) == Ok(NormalItems(items, whole, nfc).value[i])
  {
    hide Normal;
    if items != [] {
      NormalItemsAre(items[..|items| - 1], whole, nfc);
    }
  }

  lemma {:induction false} NormalFieldsAre(entries: seq<(Text, Value)>, whole: Value, nfc: Normalizer)
    requires PartsOf(entries, whole)
    ensures NormalFields(entries, whole, nfc).Ok? <==> forall i :: 0 <= i < |entries| ==> Normal(entries[i].1, nfc).Ok?
    ensures NormalFields(entries, whole, nfc).Ok? ==>
              && |NormalFields(entries, whole, nfc).value| == |entries|
              && forall i :: 0 <= i < |entries| ==>
                   && NormalFields(entries, whole, nfc).value[i].0 == nfc(entries[i].0)
                   && Normal(entries[i].1, nfc) == Ok(NormalFields(entries, whole, nfc).value[i].1)
  {
    hide Normal;
    if entries != [] {
      var init := entries[..|entries| - 1];
      assert forall e :: e in init ==> e in entries;
      NormalFieldsAre(init, whole, nfc);
    }
  }

  lemma {:induction false} NormalIsPrintable(v: Value, nfc: Normalizer)
    ensures Normal(v, nfc).Ok? ==> Printable(Normal(v, nfc).value)
    decreases v
  {
    if Normal(v, nfc).Ok? {
      match v {
        case Leaf(_) =>
        case Arr(items) =>
          NormalItemsAre(items, v, nfc);
          forall i | 0 <= i < |items| ensures Printable(Normal(items[i], nfc).value) {
            NormalIsPrintable(items[i], nfc);
          }
        case Rec(fields) =>
          SortedEntriesAreParts(fields, nfc);
          var sorted := SortedEntries(Entries(fields, nfc).value);
          NormalFieldsAre(sorted, v, nfc);
          forall i | 0 <= i < |sorted| ensures Printable(Normal(sorted[i].1, nfc).value) {
            assert sorted[i] in sorted;
            NormalIsPrintable(sorted[i].1, nfc);
          }
      }
    }
  }

  // ---- Keys in order ----

  predicate InKeyOrder<T>(s: seq<(Text, T)>) {
    forall i, j :: 0 <= i < j < |s| ==> Below(s[i].0, s[j].0)
  }

  predicate DistinctKeys<T>(s: seq<(Text, T)>) {
    forall i, j :: 0 <= i < j < |s| ==> s[i].0 != s[j].0
  }

  lemma {:induction false} InsertKeepsKeyOrder<T>(e: (Text, T), s: seq<(Text, T)>)
    requires InKeyOrder(s) && forall i :: 0 <= i < |s| ==> s[i].0 != e.0
    ensures InKeyOrder(InsertEntry(e, s))
  {
    if s != [] {
      BelowIsTotal(e.0, s[0].0);
      if Below(e.0, s[0].0) {
        forall i | 1 <= i < |s| ensures Below(e.0, s[i].0) {
          BelowIsTransitive(e.0, s[0].0, s[i].0);
        }
      } else {
        var rest := InsertEntry(e, s[1..]);
        InsertKeepsKeyOrder(e, s[1..]);
        InsertKeeps(e, s[1..]);
        assert s[0] in s;
        forall i | 0 <= i < |rest| ensures Below(s[0].0, rest[i].0) {
          assert rest[i] in [e] + s[1..];
        }
      }
    }
  }

  lemma {:induction false} SortPutsInOrder<T>(s: seq<(Text, T)>)
    requires DistinctKeys(s)
    ensures InKeyOrder(SortedEntries(s))
  {
    if s != [] {
      var init := s[..|s| - 1];
      SortPutsInOrder(init);
      SortKeeps(init);
      var sorted := SortedEntries(init);
      forall i | 0 <= i < |sorted| ensures sorted[i].0 != s[|s| - 1].0 {
        assert sorted[i] in init;
        var k :| 0 <= k < |init| && init[k] == sorted[i];
        assert s[k] == init[k];
      }
      InsertKeepsKeyOrder(s[|s| - 1], SortedEntries(init));
    }
  }

  /** There is one way to put entries with distinct keys in order. */
  lemma {:induction false} KeyOrderIsUnique<T>(s: seq<(Text, T)>, t: seq<(Text, T)>)
    requires InKeyOrder(s) && InKeyOrder(t) && SameEntries(s, t)
    ensures s == t
  {
    assert s != [] ==> s[0] in t;
    assert t != [] ==> t[0] in s;
    if s != [] {
      BelowIsTotal(s[0].0, t[0].0);
      assert s[0] == t[0];
      var s', t' := s[1..], t[1..];
      forall i | 0 <= i < |s'| ensures s'[i] in t' {
        BelowIsTotal(s[0].0, s'[i].0);
        assert s'[i] == s[i + 1] && s[i + 1] in t && s[i + 1] != t[0];
      }
      forall i | 0 <= i < |t'| ensures t'[i] in s' {
        BelowIsTotal(t[0].0, t'[i].0);
        assert t'[i] == t[i + 1] && t[i + 1] in s && t[i + 1] != s[0];
      }
      KeyOrderIsUnique(s', t');
      assert s == [s[0]] + s' && t == [t[0]] + t';
    }
  }

  /** The keys normalise apart. */
  ghost predicate KeysApart<T>(fields: seq<(Text, T)>, nfc: Normalizer) {
    forall i, j :: 0 <= i < j < |fields| ==> nfc(fields[i].0) != nfc(fields[j].0)
  }

  lemma {:induction false} EntriesExactlyWhen<T>(fields: seq<(Text, T)>, nfc: Normalizer)
    ensures Entries(fields, nfc).Ok? <==> KeysApart(fields, nfc)
    ensures Entries(fields, nfc).Err? ==> Entries(fields, nfc).error == KeyCollision
    ensures Entries(fields, nfc).Ok? ==>
              && |Entries(fields, nfc).value| == |fields|
              && forall i :: 0 <= i < |fields| ==> Entries(fields, nfc).value[i] == (nfc(fields[i].0), fields[i].1)
  {
    if fields != [] {
      var init := fields[..|fields| - 1];
      EntriesExactlyWhen(init, nfc);
      if Entries(init, nfc).Ok? {
        var sofar := Entries(init, nfc).value;
        var key := nfc(fields[|fields| - 1].0);
        assert forall i :: 0 <= i < |init| ==> KeysOf(sofar)[i] == nfc(fields[i].0);
        assert key in KeysOf(sofar) <==> exists i :: 0 <= i < |init| && KeysOf(sofar)[i] == key;
      } else {
        var i, j :| 0 <= i < j < |init| && nfc(init[i].0) == nfc(init[j].0);
        assert fields[i] == init[i] && fields[j] == init[j];
      }
    }
  }

  /** The order in which properties were added to a record does not show in its normal form. */
  lemma KeyOrderDoesNotMatter(fields: seq<(Text, Value)>, again: seq<(Text, Value)>, nfc: Normalizer)
    requires DistinctKeys(fields) && DistinctKeys(again) && SameEntries(fields, again)
    ensures Normal(Rec(fields), nfc) == Normal(Rec(again), nfc)
  {
    EntriesExactlyWhen(fields, nfc);
    EntriesExactlyWhen(again, nfc);
    if KeysApart(fields, nfc) {
      ApartAgain(fields, again, nfc);
      SameSorted(fields, again, nfc);
      SortedEntriesAreParts(fields, nfc);
      SortedEntriesAreParts(again, nfc);
      WholeDoesNotMatter(SortedEntries(Entries(fields, nfc).value), Rec(fields), Rec(again), nfc);
    } else {
      if KeysApart(again, nfc) {
        ApartAgain(again, fields, nfc);
      }
    }
  }

  lemma ApartAgain(fields: seq<(Text, Value)>, again: seq<(Text, Value)>, nfc: Normalizer)
    requires DistinctKeys(again) && SameEntries(fields, again) && KeysApart(fields, nfc)
    ensures KeysApart(again, nfc)
  {
    forall i, j | 0 <= i < j < |again| ensures nfc(again[i].0) != nfc(again[j].0) {
      assert again[i] in fields && again[j] in fields;
      var k :| 0 <= k < |fields| && fields[k] == again[i];
      var l :| 0 <= l < |fields| && fields[l] == again[j];
      assert again[i].0 != again[j].0;
      assert k < l || l < k;
    }
  }

  lemma SameSorted(fields: seq<(Text, Value)>, again: seq<(Text, Value)>, nfc: Normalizer)
    requires SameEntries(fields, again) && KeysApart(fields, nfc) && KeysApart(again, nfc)
    ensures Entries(fields, nfc).Ok? && Entries(again, nfc).Ok?
    ensures SortedEntries(Entries(fields, nfc).value) == SortedEntries(Entries(again, nfc).value)
  {
    EntriesExactlyWhen(fields, nfc);
    EntriesExactlyWhen(again, nfc);
    var s, t := Entries(fields, nfc).value, Entries(again, nfc).value;
    EntriesCarryOver(fields, again, nfc);
    EntriesCarryOver(again, fields, nfc);
    hide Entries;
    SortPutsInOrder(s);
    SortPutsInOrder(t);
    SortKeeps(s);
    SortKeeps(t);
    SameThrough(SortedEntries(s), s, t, SortedEntries(t));
    KeyOrderIsUnique(SortedEntries(s), SortedEntries(t));
  }

  lemma SameThrough<T>(a: seq<(Text, T)>, s: seq<(Text, T)>, t: seq<(Text, T)>, b: seq<(Text, T)>)
    requires SameEntries(a, s) && SameEntries(s, t) && SameEntries(b, t)
    ensures SameEntries(a, b)
  {
    forall i | 0 <= i < |a| ensures a[i] in b {
      var j :| 0 <= j < |s| && s[j] == a[i];
      assert s[j] in t;
      var k :| 0 <= k < |t| && t[k] == s[j];
    }
    forall i | 0 <= i < |b| ensures b[i] in a {
      var j :| 0 <= j < |t| && t[j] == b[i];
      assert t[j] in s;
      var k :| 0 <= k < |s| && s[k] == t[j];
    }
  }

  lemma EntriesCarryOver(fields: seq<(Text, Value)>, again: seq<(Text, Value)>, nfc: Normalizer)
    requires SameEntries(fields, again) && Entries(fields, nfc).Ok? && Entries(again, nfc).Ok?
    ensures forall i :: 0 <= i < |Entries(fields, nfc).value| ==>
              Entries(fields, nfc).value[i] in Entries(again, nfc).value
  {
    EntriesExactlyWhen(fields, nfc);
    EntriesExactlyWhen(again, nfc);
    var s, t := Entries(fields, nfc).value, Entries(again, nfc).value;
    hide Entries;
    forall i | 0 <= i < |s| ensures s[i] in t {
      assert fields[i] in again;
      var j :| 0 <= j < |again| && again[j] == fields[i];
      assert t[j] == s[i];
    }
  }

  lemma {:induction false} WholeDoesNotMatter(entries: seq<(Text, Value)>, v: Value, w: Value, nfc: Normalizer)
    requires PartsOf(entries, v) && PartsOf(entries, w)
    ensures NormalFields(entries, v, nfc) == NormalFields(entries, w, nfc)
  {
    if entries != [] {
      var init := entries[..|entries| - 1];
      assert forall e :: e in init ==> e in entries;
      WholeDoesNotMatter(init, v, w, nfc);
    }
  }

  // ---- The normal form is stable ----

  lemma {:induction false} SortedStays<T>(s: seq<(Text, T)>)
    requires InKeyOrder(s)
    ensures SortedEntries(s) == s
  {
    SortKeeps(s);
    forall i, j | 0 <= i < j < |s| ensures s[i].0 != s[j].0 {
      BelowIsTotal(s[i].0, s[j].0);
    }
    SortPutsInOrder(s);
    KeyOrderIsUnique(SortedEntries(s), s);
  }

  /** Normalising the normal form changes nothing. */
  lemma {:induction false} NormalIsStable(v: Value, nfc: Normalizer)
    requires IsNormalizer(nfc) && Normal(v, nfc).Ok?
    ensures Normal(Normal(v, nfc).value, nfc) == Normal(v, nfc)
    decreases v
  {
    match v {
      case Leaf(_) =>
      case Arr(items) =>
        NormalItemsAre(items, v, nfc);
        var normal := NormalItems(items, v, nfc).value;
        forall i | 0 <= i < |items| ensures Normal(normal[i], nfc) == Ok(normal[i]) {
          NormalIsStable(items[i], nfc);
        }
        NormalItemsAre(normal, Arr(normal), nfc);
        assert NormalItems(normal, Arr(normal), nfc).value == normal;
      case Rec(fields) =>
        SortedEntriesAreParts(fields, nfc);
        var sorted := SortedEntries(Entries(fields, nfc).value);
        NormalFieldsAre(sorted, v, nfc);
        var normal := NormalFields(sorted, v, nfc).value;
        forall i | 0 <= i < |sorted| ensures Normal(normal[i].1, nfc) == Ok(normal[i].1) {
          assert sorted[i] in sorted;
          NormalIsStable(sorted[i].1, nfc);
        }
        StableRecord(fields, normal, nfc);
    }
  }

  lemma StableRecord(fields: seq<(Text, Value)>, normal: seq<(Text, Value)>, nfc: Normalizer)
    requires IsNormalizer(nfc) && Entries(fields, nfc).Ok?
    requires |normal| == |SortedEntries(Entries(fields, nfc).value)|
    requires forall i :: 0 <= i < |normal| ==> normal[i].0 == nfc(SortedEntries(Entries(fields, nfc).value)[i].0)
    requires forall i :: 0 <= i < |normal| ==> Normal(normal[i].1, nfc) == Ok(normal[i].1)
    ensures Normal(Rec(normal), nfc) == Ok(Rec(normal))
  {
    SortedKeysAreNormal(fields, nfc);
    hide Normal, SortedEntries, Entries, Below;
    assert forall i :: 0 <= i < |normal| ==> normal[i].0 == SortedEntries(Entries(fields, nfc).value)[i].0;
    assert InKeyOrder(normal);
    forall i, j | 0 <= i < j < |normal| ensures normal[i].0 != normal[j].0 {
      BelowIsTotal(normal[i].0, normal[j].0);
    }
    EntriesExactlyWhen(normal, nfc);
    assert Entries(normal, nfc).value == normal;
    SortedStays(normal);
    RecordOfStableParts(normal, nfc);
  }

  lemma SortedKeysAreNormal(fields: seq<(Text, Value)>, nfc: Normalizer)
    requires IsNormalizer(nfc) && Entries(fields, nfc).Ok?
    ensures
      var sorted := SortedEntries(Entries(fields, nfc).value);
      InKeyOrder(sorted) && forall i :: 0 <= i < |sorted| ==> nfc(sorted[i].0) == sorted[i].0
  {
    var entries := Entries(fields, nfc).value;
    var sorted := SortedEntries(entries);
    EntriesExactlyWhen(fields, nfc);
    SortKeeps(entries);
    SortPutsInOrder(entries);
    hide Entries, SortedEntries, Below;
    forall i | 0 <= i < |sorted| ensures nfc(sorted[i].0) == sorted[i].0 {
      assert sorted[i] in entries;
      var k :| 0 <= k < |entries| && entries[k] == sorted[i];
      assert nfc(nfc(fields[k].0)) == nfc(fields[k].0);
    }
  }

  lemma RecordOfStableParts(normal: seq<(Text, Value)>, nfc: Normalizer)
    requires Entries(normal, nfc) == Ok(normal) && SortedEntries(normal) == normal
    requires forall i :: 0 <= i < |normal| ==>
               Normal(normal[i].1, nfc) == Ok(normal[i].1) && nfc(normal[i].0) == normal[i].0
    ensures Normal(Rec(normal), nfc) == Ok(Rec(normal))
  {
    hide SortedEntries, Entries;
    SortedEntriesAreParts(normal, nfc);
    NormalFieldsAre(normal, Rec(normal), nfc);
    assert NormalFields(normal, Rec(normal), nfc).value == normal;
  }

  // ---- Documents ----

  const ONE := Leaf(Str(VERSION_ONE))

  lemma FieldsAreParts(fields: seq<(Text, Value)>)
    ensures PartsOf(fields, Rec(fields))
  {
    forall e | e in fields ensures e.1 < Rec(fields) {
      var i :| 0 <= i < |fields| && fields[i] == e;
      assert fields[i].1 < Rec(fields);
    }
  }

  /** The meaning of a document: its record under normalised sorted keys, with the version in. */
  function NormalDocument(document: Value, nfc: Normalizer): Result<Value, CanonicalError> {
    if !document.Rec? then Err(NotARecord)
    else
      var entries :- Entries(document.fields, nfc);
      var versioned :- Versioned(SortedEntries(entries), ONE);
      FieldsAreParts(versioned);
      var normal :- NormalFields(versioned, Rec(versioned), nfc);
      Ok(Rec(normal))
  }

  function Canonical(document: Value, nfc: Normalizer): Result<Text, CanonicalError> {
    var normal :- NormalDocument(document, nfc);
    Ok(Print(normal))
  }

  lemma DocumentIsPrintable(document: Value, nfc: Normalizer)
    ensures NormalDocument(document, nfc).Ok? ==> Printable(NormalDocument(document, nfc).value)
  {
    if NormalDocument(document, nfc).Ok? {
      var versioned := Versioned(SortedEntries(Entries(document.fields, nfc).value), ONE).value;
      FieldsAreParts(versioned);
      NormalFieldsAre(versioned, Rec(versioned), nfc);
      forall i | 0 <= i < |versioned| ensures Printable(Normal(versioned[i].1, nfc).value) {
        NormalIsPrintable(versioned[i].1, nfc);
      }
    }
  }

  /** Two accepted documents print the same exactly when they mean the same. */
  lemma CanonicalIsInjective(document: Value, other: Value, nfc: Normalizer)
    requires Canonical(document, nfc).Ok? && Canonical(other, nfc).Ok?
    ensures Canonical(document, nfc) == Canonical(other, nfc) <==>
            NormalDocument(document, nfc) == NormalDocument(other, nfc)
  {
    DocumentIsPrintable(document, nfc);
    DocumentIsPrintable(other, nfc);
    var v, w := NormalDocument(document, nfc).value, NormalDocument(other, nfc).value;
    hide NormalDocument, Print, Printable;
    if Print(v) == Print(w) {
      PrintReadsBack(v, w, [], []);
    }
  }

  lemma {:induction false} FindMissing<T>(key: Text, entries: seq<(Text, T)>)
    requires forall i :: 0 <= i < |entries| ==> entries[i].0 != key
    ensures Find(key, entries) == None
  {
    if entries != [] {
      FindMissing(key, entries[1..]);
    }
  }

  lemma {:induction false} FindInserted<T>(e: (Text, T), entries: seq<(Text, T)>)
    requires forall i :: 0 <= i < |entries| ==> entries[i].0 != e.0
    ensures Find(e.0, InsertEntry(e, entries)) == Some(e.1)
  {
    if entries != [] {
      FindInserted(e, entries[1..]);
    }
  }

  lemma SameVersioned(entries: seq<(Text, Value)>)
    requires DistinctKeys(entries) && forall i :: 0 <= i < |entries| ==> entries[i].0 != SPEC_VERSION
    ensures Versioned(SortedEntries(entries), ONE) == Versioned(SortedEntries(entries + [(SPEC_VERSION, ONE)]), ONE)
  {
    var sorted := SortedEntries(entries);
    assert (entries + [(SPEC_VERSION, ONE)])[..|entries|] == entries;
    assert (sorted + [(SPEC_VERSION, ONE)])[..|sorted|] == sorted;
    SortKeeps(entries);
    SortPutsInOrder(entries);
    SortedStays(sorted);
    forall i | 0 <= i < |sorted| ensures sorted[i].0 != SPEC_VERSION {
      assert sorted[i] in entries;
    }
    FindMissing(SPEC_VERSION, sorted);
    FindInserted((SPEC_VERSION, ONE), sorted);
  }

  /** Leaving the version out and writing it in come to the same document. */
  lemma VersionMayBeLeftOut(fields: seq<(Text, Value)>, nfc: Normalizer)
    requires IsNormalizer(nfc) && forall i :: 0 <= i < |fields| ==> nfc(fields[i].0) != SPEC_VERSION
    ensures NormalDocument(Rec(fields), nfc) == NormalDocument(Rec(fields + [(SPEC_VERSION, ONE)]), nfc)
  {
    hide SortedEntries, Versioned, NormalFields, Normal;
    var more := fields + [(SPEC_VERSION, ONE)];
    assert nfc(SPEC_VERSION) == SPEC_VERSION;
    assert more[..|more| - 1] == fields;
    EntriesExactlyWhen(fields, nfc);
    if Entries(fields, nfc).Ok? {
      var entries := Entries(fields, nfc).value;
      assert SPEC_VERSION !in KeysOf(entries);
      assert Entries(more, nfc) == Ok(entries + [(SPEC_VERSION, ONE)]);
      hide Entries;
      SameVersioned(entries);
    }
  }
}
