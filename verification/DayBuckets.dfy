/** Entries counted per UTC day (nftopia-admin/src/dlq/dlqStats.ts). Times are in ms. */
module DayBuckets {
  import opened Common

  const DAY_MS := 86400000

  datatype DayBucket = DayBucket(day: int, count: nat)

  /** The start of the UTC day of an instant. */
  function DayOf(at: int): int {
    at / DAY_MS * DAY_MS
  }

  /** How many entries were created on the UTC days `first`, ..., `last`; an unreadable time counts nowhere. */
  function CreatedOn(entries: seq<Option<int>>, first: int, last: int): nat {
    if entries == [] then 0
    else
      var at := entries[|entries| - 1];
      CreatedOn(entries[..|entries| - 1], first, last) + (if at.Some? && first <= DayOf(at.value) <= last then 1 else 0)
  }

  /** The days end with today and leave no gap, and each bucket counts exactly the entries of its own day. */
  ghost predicate Chart(entries: seq<Option<int>>, now: int, days: int, buckets: seq<DayBucket>) {
    && |buckets| == Max(0, days)
    && forall i :: 0 <= i < days ==>
         && buckets[i].day == DayOf(now) - (days - 1 - i) * DAY_MS
         && buckets[i].count == CreatedOn(entries, buckets[i].day, buckets[i].day)
  }

  method BucketByDay(entries: seq<Option<int>>, now: int, days: int) returns (r: seq<DayBucket>)
    ensures Chart(entries, now, days, r)
  {
    var today := now / DAY_MS * DAY_MS;
    var first := today - (days - 1) * DAY_MS;
    var buckets := new DayBucket[Max(0, days)](i => DayBucket(first + i * DAY_MS, 0));
    for n := 0 to |entries|
      invariant Chart(entries[..n], now, days, buckets[..])
    {
      assert entries[..n + 1][..n] == entries[..n];
      var at := entries[n];
      if at.Some? && first <= at.value < today + DAY_MS {
        var i := (at.value - first) / DAY_MS;
        OwnDay(first, at.value);
        buckets[i] := buckets[i].(count := buckets[i].count + 1);
      }
    }
    assert entries[..|entries|] == entries;
    r := buckets[..];
  }

  /** The slot an instant falls into, counted from a day's start, is the one of its UTC day. */
  lemma OwnDay(first: int, at: int)
    requires first % DAY_MS == 0
    ensures DayOf(at) == first + (at - first) / DAY_MS * DAY_MS
  {
  }

  function Total(buckets: seq<DayBucket>): nat {
    if buckets == [] then 0 else Total(buckets[..|buckets| - 1]) + buckets[|buckets| - 1].count
  }

  lemma {:induction false} DaysAdd(entries: seq<Option<int>>, first: int, last: int)
    requires first <= last && first % DAY_MS == 0 && last % DAY_MS == 0
    ensures CreatedOn(entries, first, last) == CreatedOn(entries, first, last - DAY_MS) + CreatedOn(entries, last, last)
    decreases |entries|
  {
    if entries != [] {
      DaysAdd(entries[..|entries| - 1], first, last);
    }
  }

  lemma {:induction false} NoDays(entries: seq<Option<int>>, first: int, last: int)
    requires last < first
    ensures CreatedOn(entries, first, last) == 0
    decreases |entries|
  {
    if entries != [] {
      NoDays(entries[..|entries| - 1], first, last);
    }
  }

  lemma {:induction false} PrefixTotal(entries: seq<Option<int>>, now: int, days: int, buckets: seq<DayBucket>, n: nat)
    requires Chart(entries, now, days, buckets) && n <= |buckets|
    ensures var first := DayOf(now) - (days - 1) * DAY_MS;
            Total(buckets[..n]) == CreatedOn(entries, first, first + (n - 1) * DAY_MS)
    decreases n
  {
    var first := DayOf(now) - (days - 1) * DAY_MS;
    if n == 0 {
      NoDays(entries, first, first - DAY_MS);
    } else {
      assert buckets[..n][..n - 1] == buckets[..n - 1];
      PrefixTotal(entries, now, days, buckets, n - 1);
      DaysAdd(entries, first, first + (n - 1) * DAY_MS);
    }
  }

  /** Nothing in the window is missed or counted twice: the counts add up to the readable entries of its days. */
  lemma CountsAddUp(entries: seq<Option<int>>, now: int, days: int, buckets: seq<DayBucket>)
    requires Chart(entries, now, days, buckets)
    ensures Total(buckets) == CreatedOn(entries, DayOf(now) - (days - 1) * DAY_MS, DayOf(now))
  {
    if days > 0 {
      PrefixTotal(entries, now, days, buckets, days);
      assert buckets[..days] == buckets;
    } else {
      NoDays(entries, DayOf(now) - (days - 1) * DAY_MS, DayOf(now));
    }
  }
}
