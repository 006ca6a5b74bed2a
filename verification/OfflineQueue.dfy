/** The offline write queue and its retries (nftopia-mobile-app/stores/offlineStore.ts). */
module OfflineQueue {
  datatype Item = Item(id: string, action: string, retryCount: nat, maxRetries: nat)

  const DEFAULT_MAX_RETRIES := 3

  /** Whether the action of an item succeeds in one run. */
  type Outcomes = Item -> bool

  /** What one run leaves of an item. */
  function Left(item: Item, ok: Outcomes): seq<Item> {
    if ok(item) || item.retryCount >= item.maxRetries then [] else [item.(retryCount := item.retryCount + 1)]
  }

  function Remaining(queue: seq<Item>, ok: Outcomes): seq<Item> {
    if queue == [] then [] else Left(queue[0], ok) + Remaining(queue[1..], ok)
  }

  lemma RemainingNext(done: seq<Item>, queue: seq<Item>, i: nat, ok: Outcomes)
    requires i < |queue|
    ensures done + Remaining(queue[i..], ok) == done + Left(queue[i], ok) + Remaining(queue[i + 1..], ok)
  {
    assert queue[i..][1..] == queue[i + 1..];
  }

  class OfflineStore {
    var isOnline: bool
    var queue: seq<Item>

    constructor ()
      ensures isOnline && queue == []
    {
      isOnline, queue := true, [];
    }

    method AddToQueue(id: string, action: string)
      modifies this`queue
      ensures queue == old(queue) + [Item(id, action, 0, DEFAULT_MAX_RETRIES)]
    {
      queue := queue + [Item(id, action, 0, DEFAULT_MAX_RETRIES)];
    }

    method ProcessQueue(ok: Outcomes)
      modifies this`queue
      ensures queue == if isOnline then Remaining(old(queue), ok) else old(queue)
    {
      if !isOnline || |queue| == 0 {
        return;
      }
      var items := queue;
      var remaining: seq<Item> := [];
      assert items[0..] == items;
      for i := 0 to |items|
        invariant remaining + Remaining(items[i..], ok) == Remaining(items, ok)
      {
        var item := items[i];
        RemainingNext(remaining, items, i, ok);
        if !ok(item) && item.retryCount < item.maxRetries {
          remaining := remaining + [item.(retryCount := item.retryCount + 1)];
        }
      }
      queue := remaining;
    }
  }

  // ----- Whole sequences of runs -----

  /** The queue after some runs that do not overlap, each with its own outcomes. */
  function Runs(queue: seq<Item>, runs: seq<Outcomes>): seq<Item>
    decreases |runs|
  {
    if runs == [] then queue else Runs(Remaining(queue, runs[0]), runs[1..])
  }

  lemma {:induction false} RemainingAppend(a: seq<Item>, b: seq<Item>, ok: Outcomes)
    ensures Remaining(a + b, ok) == Remaining(a, ok) + Remaining(b, ok)
    decreases |a|
  {
    if a == [] {
      assert a + b == b;
    } else {
      assert (a + b)[1..] == a[1..] + b;
      RemainingAppend(a[1..], b, ok);
    }
  }

  /** Items do not disturb each other: a queue runs like its parts, in order. */
  lemma {:induction false} RunsAppend(a: seq<Item>, b: seq<Item>, runs: seq<Outcomes>)
    ensures Runs(a + b, runs) == Runs(a, runs) + Runs(b, runs)
    decreases |runs|
  {
    if runs != [] {
      RemainingAppend(a, b, runs[0]);
      RunsAppend(Remaining(a, runs[0]), Remaining(b, runs[0]), runs[1..]);
    }
  }

  /** The item as it is tried in run `n`, if it is still queued. */
  function Tried(item: Item, n: nat): Item {
    item.(retryCount := item.retryCount + n)
  }

  /** Its first `n` tries all failed. */
  predicate FailedThroughout(item: Item, runs: seq<Outcomes>) {
    forall n: nat :: n < |runs| ==> !runs[n](Tried(item, n))
  }

  lemma {:induction false} EmptyStaysEmpty(runs: seq<Outcomes>)
    ensures Runs([], runs) == []
    decreases |runs|
  {
    if runs != [] {
      EmptyStaysEmpty(runs[1..]);
    }
  }

  /** An item is still queued after some runs exactly when every try failed and retries were left for each. */
  lemma {:induction false} ItemFate(item: Item, runs: seq<Outcomes>)
    requires item.retryCount <= item.maxRetries
    ensures Runs([item], runs) == (if FailedThroughout(item, runs) && |runs| <= item.maxRetries - item.retryCount
                                   then [Tried(item, |runs|)] else [])
    decreases |runs|
  {
    if runs != [] {
      var ok, rest := runs[0], runs[1..];
      assert [item][1..] == [];
      assert Remaining([item], ok) == Left(item, ok);
      assert Tried(item, 0) == item;
      if ok(item) || item.retryCount == item.maxRetries {
        EmptyStaysEmpty(rest);
      } else {
        ItemFate(Tried(item, 1), rest);
        FailsOnIff(item, runs);
      }
    } else {
      assert Tried(item, 0) == item;
    }
  }

  lemma FailsOnIff(item: Item, runs: seq<Outcomes>)
    requires runs != []
    ensures FailedThroughout(item, runs) <==> !runs[0](item) && FailedThroughout(Tried(item, 1), runs[1..])
  {
    assert Tried(item, 0) == item;
    assert forall n: nat :: n < |runs[1..]| ==> runs[1..][n] == runs[n + 1] && Tried(Tried(item, 1), n) == Tried(item, n + 1);
  }

  function Fates(queue: seq<Item>, runs: seq<Outcomes>): seq<Item>
    requires forall i :: 0 <= i < |queue| ==> queue[i].retryCount <= queue[i].maxRetries
  {
    if queue == [] then []
    else (if FailedThroughout(queue[0], runs) && |runs| <= queue[0].maxRetries - queue[0].retryCount then [Tried(queue[0], |runs|)] else [])
         + Fates(queue[1..], runs)
  }

  /** The queue after any runs: in their old order, exactly the items that failed every time and had a retry for each run. */
  lemma {:induction false} QueueFate(queue: seq<Item>, runs: seq<Outcomes>)
    requires forall i :: 0 <= i < |queue| ==> queue[i].retryCount <= queue[i].maxRetries
    ensures Runs(queue, runs) == Fates(queue, runs)
    decreases |queue|
  {
    if queue == [] {
      EmptyStaysEmpty(runs);
    } else {
      assert queue == [queue[0]] + queue[1..];
      RunsAppend([queue[0]], queue[1..], runs);
      ItemFate(queue[0], runs);
      QueueFate(queue[1..], runs);
    }
  }

  /** Tries left in the whole queue. */
  function Budget(queue: seq<Item>): int {
    if queue == [] then 0 else queue[0].maxRetries - queue[0].retryCount + 1 + Budget(queue[1..])
  }

  lemma {:induction false} BudgetAppend(a: seq<Item>, b: seq<Item>)
    ensures Budget(a + b) == Budget(a) + Budget(b)
    decreases |a|
  {
    if a == [] {
      assert a + b == b;
    } else {
      assert (a + b)[1..] == a[1..] + b;
      BudgetAppend(a[1..], b);
    }
  }

  /** Every run uses up at least one try for each queued item. */
  lemma {:induction false} RunSpendsBudget(queue: seq<Item>, ok: Outcomes)
    requires forall i :: 0 <= i < |queue| ==> queue[i].retryCount <= queue[i].maxRetries
    ensures Budget(Remaining(queue, ok)) <= Budget(queue) - |queue|
    decreases |queue|
  {
    if queue != [] {
      RunSpendsBudget(queue[1..], ok);
      BudgetAppend(Left(queue[0], ok), Remaining(queue[1..], ok));
    }
  }

  /** With the default of three retries, whatever the outcomes, four runs empty the queue. */
  lemma {:induction false} FourRunsSuffice(queue: seq<Item>, runs: seq<Outcomes>)
    requires forall i :: 0 <= i < |queue| ==> queue[i].retryCount <= queue[i].maxRetries <= DEFAULT_MAX_RETRIES
    requires |runs| >= 4
    ensures Runs(queue, runs) == []
    decreases |queue|
  {
    QueueFate(queue, runs);
    if queue != [] {
      FourRunsSuffice(queue[1..], runs);
      QueueFate(queue[1..], runs);
    }
  }
}
