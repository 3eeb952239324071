/**
 Reading an address's signatures page by page, newest first, while the chain goes
 on adding newer ones in front.
 */
module Paging {
  import opened Wrappers
  import opened NumberTheory
  import opened Sequences

  datatype Entry = Entry(signature: string, failed: bool)

  datatype HistoryError = TooMany

  /** The list the source would answer at its k-th call. */
  type Source = nat -> seq<Entry>

  predicate NamesApart(list: seq<Entry>) {
    && (forall i :: 0 <= i < |list| ==> list[i].signature != "")
    && (forall i, j :: 0 <= i < j < |list| ==> list[i].signature != list[j].signature)
  }

  /** Signatures are unique, and between calls newer ones are only put in front. */
  ghost predicate GrowsInFront(source: Source) {
    forall k :: NamesApart(source(k)) && EndsWith(source(k), source(0))
  }

  predicate EndsWith(list: seq<Entry>, tail: seq<Entry>) {
    |tail| <= |list| && list[|list| - |tail|..] == tail
  }

  function IndexOf(list: seq<Entry>, signature: string): (i: nat)
    ensures i <= |list|
    ensures i < |list| ==> list[i].signature == signature
    ensures forall j :: 0 <= j < i ==> list[j].signature != signature
  {
    if list == [] || list[0].signature == signature then 0 else 1 + IndexOf(list[1..], signature)
  }

  /** One page: up to `limit` entries older than `before`, or the newest ones. */
  function PageOf(list: seq<Entry>, before: Option<string>, limit: nat): seq<Entry> {
    var start := match before
                 case None => 0
                 case Some(signature) =>
                   if IndexOf(list, signature) < |list| then IndexOf(list, signature) + 1 else |list|;
    if start + limit <= |list| then list[start..start + limit] else list[start..]
  }

  /** The list cut strictly before the entry the caller has already seen, when it is there. */
  function CutAt(list: seq<Entry>, until: Option<string>): seq<Entry> {
    match until
    case None => list
    case Some(signature) => list[..IndexOf(list, signature)]
  }

  predicate Stops(list: seq<Entry>, until: Option<string>) {
    until.Some? && IndexOf(list, until.value) < |list|
  }

  function Min(a: nat, b: nat): nat {
    if a <= b then a else b
  }

  /**
   When a read gives up: after a page that leaves at least the maximum collected
   without having met the stopping signature.
   */
  ghost predicate GivesUp(list: seq<Entry>, until: Option<string>, pageSize: nat, max: nat)
    requires pageSize > 0
  {
    exists n :: ChecksAt(list, until, pageSize, n) && n >= max
  }

  /** The counts at which the limit is looked at: full pages, and the last one unless the read stopped in it. */
  predicate ChecksAt(list: seq<Entry>, until: Option<string>, pageSize: nat, n: int)
    requires pageSize > 0
  {
    0 < n <= |CutAt(list, until)| && (n % pageSize == 0 || (n == |list| && !Stops(list, until)))
  }

  // ---- A later call still sees the same older entries ----

  lemma IndexInSuffix(list: seq<Entry>, tail: seq<Entry>, n: nat)
    requires NamesApart(list) && EndsWith(list, tail) && n < |tail|
    ensures IndexOf(list, tail[n].signature) == |list| - |tail| + n
  {
    var at := |list| - |tail| + n;
    assert list[at] == list[|list| - |tail|..][n] == tail[n];
    var i := IndexOf(list, tail[n].signature);
    assert i <= at;
  }

  lemma SliceOfSuffix(list: seq<Entry>, tail: seq<Entry>, n: nat, m: nat)
    requires EndsWith(list, tail) && n <= m <= |tail|
    ensures list[|list| - |tail| + n..|list| - |tail| + m] == tail[n..m]
  {
    var shift := |list| - |tail|;
    assert list[shift..][n..m] == list[shift + n..shift + m];
  }

  lemma PageContinues(source: Source, k: nat, n: nat, limit: nat)
    requires GrowsInFront(source) && n <= |source(0)| && (n == 0 ==> k == 0)
    ensures
      var first := source(0);
      var before := if n == 0 then None else Some(first[n - 1].signature);
      PageOf(source(k), before, limit) == first[n..Min(n + limit, |first|)]
  {
    var first, list := source(0), source(k);
    assert NamesApart(list) && EndsWith(list, first);
    SliceOfSuffix(list, first, n, Min(n + limit, |first|));
    if n > 0 {
      IndexInSuffix(list, first, n - 1);
      PageAfter(list, first[n - 1].signature, |list| - |first| + n, limit);
    }
  }

  lemma PageAfter(list: seq<Entry>, signature: string, start: nat, limit: nat)
    requires IndexOf(list, signature) + 1 == start <= |list|
    ensures PageOf(list, Some(signature), limit) == list[start..Min(start + limit, |list|)]
  {
    hide IndexOf;
  }

  lemma CutWhenMet(list: seq<Entry>, until: string, n: nat)
    requires n < |list| && list[n].signature == until && forall j :: 0 <= j < n ==> list[j].signature != until
    ensures CutAt(list, Some(until)) == list[..n] && Stops(list, Some(until))
  {
    assert IndexOf(list, until) == n;
  }

  lemma CutWhenNotMet(list: seq<Entry>, until: Option<string>)
    requires until.Some? ==> forall j :: 0 <= j < |list| ==> list[j].signature != until.value
    ensures CutAt(list, until) == list && !Stops(list, until)
  {
    if until.Some? {
      assert IndexOf(list, until.value) == |list|;
    }
  }

  lemma NoCutBefore(list: seq<Entry>, until: Option<string>, n: nat)
    requires n <= |list| && (until.Some? ==> forall j :: 0 <= j < n ==> list[j].signature != until.value)
    ensures n <= |CutAt(list, until)|
  {
  }

  /** How far a read has come. */
  ghost predicate HasRead(first: seq<Entry>, until: Option<string>, pageSize: nat, max: nat, n: nat)
    requires pageSize > 0
  {
    && n <= |first| && n % pageSize == 0
    && (until.Some? ==> forall j :: 0 <= j < n ==> first[j].signature != until.value)
    && (forall m :: 0 < m <= n && m % pageSize == 0 ==> m < max)
  }

  lemma NextFullPage(n: nat, pageSize: nat)
    requires pageSize > 0 && n % pageSize == 0
    ensures (n + pageSize) % pageSize == 0
    ensures forall m :: n < m < n + pageSize ==> m % pageSize != 0
  {
    var q := n / pageSize;
    assert n == q * pageSize;
    assert n + pageSize == (q + 1) * pageSize;
    DivisionIsUnique(n + pageSize, pageSize, q + 1, 0);
    forall m | n < m < n + pageSize ensures m % pageSize != 0 {
      DivisionIsUnique(m, pageSize, q, m - n);
    }
  }

  lemma GaveUpAt(first: seq<Entry>, until: Option<string>, pageSize: nat, max: nat, n: nat)
    requires pageSize > 0 && 0 < n && n <= |first| && n >= max
    requires until.Some? ==> forall j :: 0 <= j < n ==> first[j].signature != until.value
    requires n % pageSize == 0 || n == |first|
    ensures GivesUp(first, until, pageSize, max)
  {
    NoCutBefore(first, until, n);
    if n == |first| {
      CutWhenNotMet(first, until);
    }
    assert ChecksAt(first, until, pageSize, n);
  }

  /**
   Whatever the page size and however many newer signatures arrive between calls,
   the read ends, and its answer is the list as it stood at the first call, oldest
   first, cut where the caller asked, unless the list is too long.
   */
  method SignatureHistory(source: Source, until: Option<string>, pageSize: nat, max: nat)
    returns (r: Result<seq<Entry>, HistoryError>)
    requires GrowsInFront(source) && pageSize > 0
    ensures r.Err? <==> GivesUp(source(0), until, pageSize, max)
    ensures r.Ok? ==> r.value == Reversed(CutAt(source(0), until))
    ensures |source(0)| < max ==> r == Ok(Reversed(CutAt(source(0), until)))
  {
    hide *;
    ghost var first := source(0);
    var collected: seq<Entry> := [];
    var before: Option<string> := None;
    var call := 0;
    NothingRead(first, until, pageSize, max);
    while true
      invariant |collected| <= |first| && collected == first[..|collected|]
      invariant HasRead(first, until, pageSize, max, |collected|)
      invariant before == if |collected| == 0 then None else Some(first[|collected| - 1].signature)
      invariant |collected| == 0 ==> call == 0
      decreases |first| - |collected|
    {
      ghost var n := |collected|;
      var page := NextPage(source, call, before, pageSize, n);
      call := call + 1;
      if |page| == 0 {
        ReadToTheEnd(first, until, pageSize, max, n, n);
        break;
      }
      var met;
      collected, met := TakePage(collected, page, until);
      UnmetInPage(first, page, until, n, |collected| - n);
      if met {
        assert collected == first[..|collected|];
        StoppedInTime(first, until, pageSize, max, n, |collected| - n);
        return Ok(Reversed(collected));
      }
      assert collected == first[..n + |page|];
      if |collected| >= max {
        GaveUpInTime(first, until, pageSize, max, n, |collected|);
        return Err(TooMany);
      }
      if |page| < pageSize {
        ReadToTheEnd(first, until, pageSize, max, n, |collected|);
        break;
      }
      ReadOnePage(first, until, pageSize, max, n);
      before := Some(page[|page| - 1].signature);
    }
    assert collected == first;
    return Ok(Reversed(collected));
  }

  method NextPage(source: Source, call: nat, before: Option<string>, pageSize: nat, ghost n: nat)
    returns (page: seq<Entry>)
    requires GrowsInFront(source) && n <= |source(0)| && (n == 0 ==> call == 0)
    requires before == if n == 0 then None else Some(source(0)[n - 1].signature)
    ensures |page| <= pageSize && n + |page| <= |source(0)| && page == source(0)[n..n + |page|]
    ensures |page| < pageSize ==> n + |page| == |source(0)|
  {
    PageContinues(source, call, n, pageSize);
    page := PageOf(source(call), before, pageSize);
  }

  /** Collects a page, up to the stopping signature if it is there. */
  method TakePage(collected: seq<Entry>, page: seq<Entry>, until: Option<string>) returns (all: seq<Entry>, met: bool)
    ensures |collected| <= |all| <= |collected| + |page| && all == collected + page[..|all| - |collected|]
    ensures until.Some? ==> forall j :: 0 <= j < |all| - |collected| ==> page[j].signature != until.value
    ensures !met ==> |all| == |collected| + |page|
    ensures met ==> |all| < |collected| + |page| && until == Some(page[|all| - |collected|].signature)
  {
    all := collected;
    for i := 0 to |page|
      invariant all == collected + page[..i]
      invariant until.Some? ==> forall j :: 0 <= j < i ==> page[j].signature != until.value
    {
      if until.Some? && page[i].signature == until.value {
        return all, true;
      }
      all := all + [page[i]];
    }
    return all, false;
  }

  lemma NothingRead(first: seq<Entry>, until: Option<string>, pageSize: nat, max: nat)
    requires pageSize > 0
    ensures HasRead(first, until, pageSize, max, 0)
  {
  }

  /** None of a stretch of the list is the stopping signature. */
  predicate Unmet(first: seq<Entry>, until: Option<string>, n: nat, m: nat)
    requires n <= m <= |first|
  {
    until.Some? ==> forall j :: n <= j < m ==> first[j].signature != until.value
  }

  /** What a page says about the list it is part of, once i of its entries are taken. */
  lemma UnmetInPage(first: seq<Entry>, page: seq<Entry>, until: Option<string>, n: nat, i: nat)
    requires n + |page| <= |first| && page == first[n..n + |page|] && i <= |page|
    requires until.Some? ==> forall j :: 0 <= j < i ==> page[j].signature != until.value
    ensures Unmet(first, until, n, n + i)
    ensures i < |page| ==> first[n + i] == page[i]
    ensures first[..n] + page[..i] == first[..n + i]
  {
    forall j | n <= j < n + i ensures first[j] == page[j - n] {
    }
  }

  lemma ReadOnePage(first: seq<Entry>, until: Option<string>, pageSize: nat, max: nat, n: nat)
    requires pageSize > 0 && HasRead(first, until, pageSize, max, n) && n + pageSize <= |first| && n + pageSize < max
    requires Unmet(first, until, n, n + pageSize)
    ensures HasRead(first, until, pageSize, max, n + pageSize)
  {
    NextFullPage(n, pageSize);
  }

  lemma GaveUpInTime(first: seq<Entry>, until: Option<string>, pageSize: nat, max: nat, n: nat, m: nat)
    requires pageSize > 0 && HasRead(first, until, pageSize, max, n) && n < m <= |first| && m >= max
    requires m == n + pageSize || m == |first|
    requires Unmet(first, until, n, m)
    ensures GivesUp(first, until, pageSize, max)
    ensures !(|first| < max)
  {
    NextFullPage(n, pageSize);
    GaveUpAt(first, until, pageSize, max, m);
  }

  lemma StoppedInTime(first: seq<Entry>, until: Option<string>, pageSize: nat, max: nat, n: nat, i: nat)
    requires pageSize > 0 && HasRead(first, until, pageSize, max, n) && i < pageSize && n + i < |first|
    requires Unmet(first, until, n, n + i) && until == Some(first[n + i].signature)
    ensures !GivesUp(first, until, pageSize, max) && CutAt(first, until) == first[..n + i]
  {
    NextFullPage(n, pageSize);
    CutWhenMet(first, until.value, n + i);
  }

  lemma ReadToTheEnd(first: seq<Entry>, until: Option<string>, pageSize: nat, max: nat, n: nat, m: nat)
    requires pageSize > 0 && HasRead(first, until, pageSize, max, n) && n <= m == |first| < n + pageSize
    requires Unmet(first, until, n, m) && (n < m ==> m < max)
    ensures !GivesUp(first, until, pageSize, max) && CutAt(first, until) == first
  {
    NextFullPage(n, pageSize);
    CutWhenNotMet(first, until);
  }
}
