/** The order annotations are read in: chain coordinates first, then the receipt id. */
module ReceiptOrder {
  import opened Receipts
  import opened Sequences

  /** Character by character, a prefix before its extensions. On lower-case hexadecimal ids this is localeCompare. */
  predicate TextBelow(a: string, b: string) {
    if b == "" then false
    else if a == "" then true
    else if a[0] != b[0] then a[0] < b[0]
    else TextBelow(a[1..], b[1..])
  }

  function Inner(r: Receipt): int {
    if r.innerInstructionIndex.Some? then r.innerInstructionIndex.value else -1
  }

  predicate CoordinateBelow(a: Receipt, b: Receipt) {
    if a.slot != b.slot then a.slot < b.slot
    else if a.instructionIndex != b.instructionIndex then a.instructionIndex < b.instructionIndex
    else Inner(a) < Inner(b)
  }

  predicate Precedes(a: Receipt, b: Receipt) {
    CoordinateBelow(a, b) || (!CoordinateBelow(b, a) && TextBelow(a.receiptId, b.receiptId))
  }

  lemma {:induction false} TextOrderIsTotal(a: string, b: string)
    ensures TextBelow(a, b) || TextBelow(b, a) || a == b
    ensures !(TextBelow(a, b) && TextBelow(b, a))
    ensures !TextBelow(a, a)
  {
    if a != "" && b != "" {
      TextOrderIsTotal(a[1..], b[1..]);
      assert a == [a[0]] + a[1..] && b == [b[0]] + b[1..];
    }
    if a != "" {
      assert |a[1..]| < |a|;
      TextOrderIsTotal(a[1..], a[1..]);
    }
  }

  lemma {:induction false} TextOrderIsTransitive(a: string, b: string, c: string)
    requires TextBelow(a, b) && TextBelow(b, c)
    ensures TextBelow(a, c)
  {
    if a != "" && a[0] == b[0] == c[0] {
      TextOrderIsTransitive(a[1..], b[1..], c[1..]);
    }
  }

  /** On receipts with different ids the order decides one way, and only one way. */
  lemma ReceiptOrderIsTotal(a: Receipt, b: Receipt)
    ensures !(Precedes(a, b) && Precedes(b, a))
    ensures a.receiptId != b.receiptId ==> Precedes(a, b) || Precedes(b, a)
  {
    TextOrderIsTotal(a.receiptId, b.receiptId);
  }

  lemma ReceiptOrderIsTransitive(a: Receipt, b: Receipt, c: Receipt)
    requires Precedes(a, b) && Precedes(b, c)
    ensures Precedes(a, c)
  {
    if TextBelow(a.receiptId, b.receiptId) && TextBelow(b.receiptId, c.receiptId) {
      TextOrderIsTransitive(a.receiptId, b.receiptId, c.receiptId);
    }
  }

  // ---- Sorting ----

  predicate InOrder(s: seq<Receipt>) {
    forall i, j :: 0 <= i < j < |s| ==> Precedes(s[i], s[j])
  }

  predicate DistinctIds(s: seq<Receipt>) {
    forall i, j :: 0 <= i < j < |s| ==> s[i].receiptId != s[j].receiptId
  }

  function Insert(r: Receipt, s: seq<Receipt>): seq<Receipt> {
    if s == [] then [r]
    else if Precedes(r, s[0]) then [r] + s
    else [s[0]] + Insert(r, s[1..])
  }

  function Sorted(s: seq<Receipt>): seq<Receipt> {
    if s == [] then [] else Insert(s[|s| - 1], Sorted(s[..|s| - 1]))
  }

  lemma {:induction false} InsertAdds(r: Receipt, s: seq<Receipt>)
    ensures multiset(Insert(r, s)) == multiset(s) + multiset{r}
  {
    if s != [] {
      assert s == [s[0]] + s[1..];
      InsertAdds(r, s[1..]);
    }
  }

  lemma {:induction false} SortedPermutes(s: seq<Receipt>)
    ensures multiset(Sorted(s)) == multiset(s)
    ensures SameElements(Sorted(s), s)
  {
    if s != [] {
      var init := s[..|s| - 1];
      assert s == init + [s[|s| - 1]];
      SortedPermutes(init);
      InsertAdds(s[|s| - 1], Sorted(init));
    }
    forall x ensures x in Sorted(s) <==> x in s {
      assert x in multiset(Sorted(s)) <==> x in multiset(s);
    }
  }

  lemma {:induction false} InsertKeepsOrder(r: Receipt, s: seq<Receipt>)
    requires InOrder(s) && forall x :: x in s ==> x.receiptId != r.receiptId
    ensures InOrder(Insert(r, s))
  {
    if s != [] {
      ReceiptOrderIsTotal(r, s[0]);
      if Precedes(r, s[0]) {
        forall i | 1 <= i < |s| ensures Precedes(r, s[i]) {
          ReceiptOrderIsTransitive(r, s[0], s[i]);
        }
      } else {
        var rest := Insert(r, s[1..]);
        InsertKeepsOrder(r, s[1..]);
        InsertAdds(r, s[1..]);
        forall x | x in rest ensures Precedes(s[0], x) {
          assert x in multiset(rest);
          assert x == r || x in s[1..];
        }
      }
    }
  }

  lemma {:induction false} SortedIsInOrder(s: seq<Receipt>)
    requires DistinctIds(s)
    ensures InOrder(Sorted(s))
  {
    if s != [] {
      var init := s[..|s| - 1];
      SortedIsInOrder(init);
      SortedPermutes(init);
      InsertKeepsOrder(s[|s| - 1], Sorted(init));
    }
  }

  /** There is only one way to put a set of receipts in order. */
  lemma {:induction false} OrderIsUnique(s: seq<Receipt>, t: seq<Receipt>)
    requires InOrder(s) && InOrder(t) && SameElements(s, t)
    ensures s == t
  {
    assert s != [] ==> s[0] in t;
    assert t != [] ==> t[0] in s;
    if s != [] {
      ReceiptOrderIsTotal(s[0], t[0]);
      assert s[0] == t[0];
      forall x | x in s[1..] ensures x in t[1..] {
        ReceiptOrderIsTotal(s[0], x);
        assert x in t && x != t[0];
      }
      forall x | x in t[1..] ensures x in s[1..] {
        ReceiptOrderIsTotal(t[0], x);
        assert x in s && x != s[0];
      }
      OrderIsUnique(s[1..], t[1..]);
      assert s == [s[0]] + s[1..] && t == [t[0]] + t[1..];
    }
  }

  /** Sorting forgets the order it was given. */
  lemma SortedDependsOnElements(s: seq<Receipt>, t: seq<Receipt>)
    requires DistinctIds(s) && DistinctIds(t) && SameElements(s, t)
    ensures Sorted(s) == Sorted(t)
  {
    SortedIsInOrder(s);
    SortedIsInOrder(t);
    SortedPermutes(s);
    SortedPermutes(t);
    OrderIsUnique(Sorted(s), Sorted(t));
  }
}
