/**
 * Bounded most-recent-first lists as views of an unbounded history
 * (nftopia-mobile-app/stores/recentlyViewedStore.ts; the recent searches have the same shape).
 */
module Recency {
  datatype Entry = Entry(nftId: string, viewedAt: int)

  const MAX_RECENTLY_VIEWED := 20

  function Without(items: seq<Entry>, id: string): (r: seq<Entry>)
    ensures forall e :: e in r <==> e in items && e.nftId != id
    ensures |r| <= |items|
  {
    if items == [] then []
    else if items[0].nftId == id then Without(items[1..], id)
    else [items[0]] + Without(items[1..], id)
  }

  function Take(items: seq<Entry>, cap: nat): seq<Entry> {
    if |items| <= cap then items else items[..cap]
  }

  /** Drop the old entry of this item, put the new one in front, and cut. */
  function Tracked(items: seq<Entry>, e: Entry, cap: nat): seq<Entry> {
    Take([e] + Without(items, e.nftId), cap)
  }

  lemma WithoutNext(kept: seq<Entry>, items: seq<Entry>, i: nat, id: string)
    requires i < |items|
    ensures kept + Without(items[i..], id) == kept + (if items[i].nftId == id then [] else [items[i]]) + Without(items[i + 1..], id)
  {
    assert items[i..][1..] == items[i + 1..];
  }

  method Filtered(items: seq<Entry>, id: string) returns (kept: seq<Entry>)
    ensures kept == Without(items, id)
  {
    kept := [];
    assert items[0..] == items;
    for i := 0 to |items|
      invariant kept + Without(items[i..], id) == Without(items, id)
    {
      WithoutNext(kept, items, i, id);
      if items[i].nftId != id {
        kept := kept + [items[i]];
      }
    }
  }

  class RecentlyViewedStore {
    var items: seq<Entry>
    ghost var history: seq<Entry>

    /** The list is what cutting at every view leaves of the history since the last clear. */
    ghost predicate Valid()
      reads this
    {
      items == Kept(history, MAX_RECENTLY_VIEWED)
    }

    constructor ()
      ensures Valid() && history == []
    {
      items, history := [], [];
    }

    method TrackView(nftId: string, now: int)
      requires Valid()
      modifies this
      ensures Valid() && history == old(history) + [Entry(nftId, now)]
      ensures items == Tracked(old(items), Entry(nftId, now), MAX_RECENTLY_VIEWED)
    {
      var withoutExisting := Filtered(items, nftId);
      var next := [Entry(nftId, now)] + withoutExisting;
      items := if |next| <= MAX_RECENTLY_VIEWED then next else next[..MAX_RECENTLY_VIEWED];
      history := history + [Entry(nftId, now)];
      assert history[..|history| - 1] == old(history);
    }

    method ClearHistory()
      modifies this
      ensures Valid() && items == [] && history == []
    {
      items, history := [], [];
    }
  }

  // ----- The unbounded history -----

  /** The list obtained by cutting at every view. */
  function Kept(history: seq<Entry>, cap: nat): seq<Entry> {
    if history == [] then [] else Tracked(Kept(history[..|history| - 1], cap), history[|history| - 1], cap)
  }

  /** The latest view of every item, most recent first, never cut. */
  function Latest(history: seq<Entry>): seq<Entry> {
    if history == [] then []
    else [history[|history| - 1]] + Without(Latest(history[..|history| - 1]), history[|history| - 1].nftId)
  }

  ghost predicate DistinctIds(items: seq<Entry>) {
    forall i, j :: 0 <= i < j < |items| ==> items[i].nftId != items[j].nftId
  }

  lemma {:induction false} WithoutKeepsDistinct(items: seq<Entry>, id: string)
    requires DistinctIds(items)
    ensures DistinctIds(Without(items, id))
    decreases |items|
  {
    if items != [] {
      WithoutKeepsDistinct(items[1..], id);
      var rest := Without(items[1..], id);
      forall j | 0 <= j < |rest| ensures rest[j].nftId != items[0].nftId {
        assert rest[j] in items[1..];
      }
    }
  }

  lemma {:induction false} LatestDistinct(history: seq<Entry>)
    ensures DistinctIds(Latest(history))
    decreases |history|
  {
    if history != [] {
      var earlier, e := Latest(history[..|history| - 1]), history[|history| - 1];
      LatestDistinct(history[..|history| - 1]);
      WithoutKeepsDistinct(earlier, e.nftId);
      var rest := Without(earlier, e.nftId);
      forall j | 0 <= j < |rest| ensures rest[j].nftId != e.nftId {
        assert rest[j] in rest;
      }
    }
  }

  lemma {:induction false} AbsentUnchanged(items: seq<Entry>, id: string)
    requires forall e :: e in items ==> e.nftId != id
    ensures Without(items, id) == items
    decreases |items|
  {
    if items != [] {
      AbsentUnchanged(items[1..], id);
    }
  }

  /** An item that comes first comes nowhere else. */
  lemma FirstIsOnlyOne(items: seq<Entry>)
    requires items != [] && DistinctIds(items)
    ensures forall e :: e in items[1..] ==> e.nftId != items[0].nftId
    ensures Without(items, items[0].nftId) == items[1..]
  {
    var rest, id := items[1..], items[0].nftId;
    forall e | e in rest ensures e.nftId != id {
      var j :| 0 <= j < |rest| && rest[j] == e;
      assert items[j + 1] == e;
    }
    AbsentUnchanged(rest, id);
  }

  lemma TakeTail(items: seq<Entry>, cap: nat)
    requires items != [] && cap >= 1
    ensures Take(items, cap) == [items[0]] + Take(items[1..], cap - 1)
  {
  }

  lemma DistinctTaken(items: seq<Entry>, cap: nat)
    requires DistinctIds(items)
    ensures DistinctIds(Take(items, cap))
  {
  }

  /** Removing an item before or after a cut: one entry fewer is enough room for the new one. */
  lemma {:induction false} WithoutOfTake(items: seq<Entry>, id: string, cap: nat)
    requires DistinctIds(items) && cap >= 1
    ensures Take(Without(Take(items, cap), id), cap - 1) == Take(Without(items, id), cap - 1)
    decreases |items|
  {
    if items != [] && items[0].nftId == id {
      TakeTail(items, cap);
      FirstIsOnlyOne(items);
      DistinctTaken(items, cap);
      FirstIsOnlyOne(Take(items, cap));
    } else if items != [] && cap > 1 {
      var first, rest := items[0], items[1..];
      TakeTail(items, cap);
      WithoutOfTake(rest, id, cap - 1);
      TakeCons(first, Without(Take(rest, cap - 1), id), cap - 1);
      TakeCons(first, Without(rest, id), cap - 1);
    }
  }

  lemma TakeCons(e: Entry, items: seq<Entry>, cap: nat)
    requires cap >= 1
    ensures Take([e] + items, cap) == [e] + Take(items, cap - 1)
  {
  }

  /** Cutting at every view equals cutting once at the end. */
  lemma {:induction false} CuttingCommutes(history: seq<Entry>, cap: nat)
    requires cap >= 1
    ensures Kept(history, cap) == Take(Latest(history), cap)
    decreases |history|
  {
    if history != [] {
      var before, e := history[..|history| - 1], history[|history| - 1];
      CuttingCommutes(before, cap);
      LatestDistinct(before);
      WithoutOfTake(Latest(before), e.nftId, cap);
      TakeCons(e, Without(Take(Latest(before), cap), e.nftId), cap);
      TakeCons(e, Without(Latest(before), e.nftId), cap);
    }
  }

  /** The shorter of two lists of the same history is a prefix of the longer. */
  lemma ShorterIsPrefix(history: seq<Entry>, n: nat, m: nat)
    requires 1 <= n <= m
    ensures Kept(history, n) <= Kept(history, m)
    ensures Kept(history, n) == Take(Kept(history, m), n)
  {
    CuttingCommutes(history, n);
    CuttingCommutes(history, m);
  }

  // ----- What the latest views are -----

  /** Nobody viewed the item again after position `i`. */
  predicate IsLastView(history: seq<Entry>, i: nat)
    requires i < |history|
  {
    forall j :: i < j < |history| ==> history[j].nftId != history[i].nftId
  }

  /** The view at a position, if it is the last of its item. */
  function LastViewAt(history: seq<Entry>, i: nat): seq<Entry>
    requires i < |history|
  {
    if IsLastView(history, i) then [history[i]] else []
  }

  /** Reading the history backwards from position `n`, the views that are the last of their item. */
  function LastViews(history: seq<Entry>, n: nat): seq<Entry>
    requires n <= |history|
  {
    if n == 0 then []
    else LastViewAt(history, n - 1) + LastViews(history, n - 1)
  }

  lemma {:induction false} WithoutAppend(xs: seq<Entry>, ys: seq<Entry>, id: string)
    ensures Without(xs + ys, id) == Without(xs, id) + Without(ys, id)
    decreases |xs|
  {
    if xs == [] {
      assert xs + ys == ys;
    } else {
      assert (xs + ys)[1..] == xs[1..] + ys;
      WithoutAppend(xs[1..], ys, id);
    }
  }

  lemma LastViewWithOneMore(history: seq<Entry>, e: Entry, i: nat)
    requires i < |history|
    ensures LastViewAt(history + [e], i) == Without(LastViewAt(history, i), e.nftId)
  {
    var more := history + [e];
    assert forall j :: 0 <= j < |history| ==> more[j] == history[j];
    assert more[|history|] == e;
  }

  lemma BothWithout(a: seq<Entry>, b: seq<Entry>, whole: seq<Entry>, a': seq<Entry>, b': seq<Entry>, whole': seq<Entry>, id: string)
    requires a' == Without(a, id) && b' == Without(b, id) && whole == a + b && whole' == a' + b'
    ensures whole' == Without(whole, id)
  {
    WithoutAppend(a, b, id);
  }

  lemma {:induction false} OneMoreView(history: seq<Entry>, more: seq<Entry>, id: string, n: nat, views: seq<Entry>, views': seq<Entry>)
    requires n <= |history| <= |more|
    requires forall i :: 0 <= i < n ==> LastViewAt(more, i) == Without(LastViewAt(history, i), id)
    requires views == LastViews(history, n) && views' == LastViews(more, n)
    ensures views' == Without(views, id)
    decreases n
  {
    if n > 0 {
      var rest, rest' := LastViews(history, n - 1), LastViews(more, n - 1);
      OneMoreView(history, more, id, n - 1, rest, rest');
      BothWithout(LastViewAt(history, n - 1), rest, views, LastViewAt(more, n - 1), rest', views', id);
    }
  }

  /** The uncut list is the last view of every item, read backwards: the distinct items of the reversed history. */
  lemma {:induction false} LatestAreLastViews(history: seq<Entry>)
    ensures Latest(history) == LastViews(history, |history|)
    decreases |history|
  {
    if history != [] {
      var before, e := history[..|history| - 1], history[|history| - 1];
      LatestAreLastViews(before);
      EarlierViews(before, e, LastViews(before, |before|), LastViews(before + [e], |before|));
      assert history == before + [e];
      assert LastViewAt(history, |before|) == [e];
    }
  }

  lemma EarlierViews(before: seq<Entry>, e: Entry, views: seq<Entry>, views': seq<Entry>)
    requires views == LastViews(before, |before|) && views' == LastViews(before + [e], |before|)
    ensures views' == Without(views, e.nftId)
  {
    forall i | 0 <= i < |before| ensures LastViewAt(before + [e], i) == Without(LastViewAt(before, i), e.nftId) {
      LastViewWithOneMore(before, e, i);
    }
    OneMoreView(before, before + [e], e.nftId, |before|, views, views');
  }

  /** After any views, the stored list is the first `cap` distinct items of the reversed history, each at its last view. */
  lemma RecentlyViewedExactly(history: seq<Entry>, cap: nat)
    requires cap >= 1
    ensures Kept(history, cap) == Take(LastViews(history, |history|), cap)
    ensures DistinctIds(Kept(history, cap)) && |Kept(history, cap)| <= cap
  {
    CuttingCommutes(history, cap);
    LatestAreLastViews(history);
    LatestDistinct(history);
  }
}
