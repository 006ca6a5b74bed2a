/**
 * Runs of the offline queue cut at every await: items may be added, and other runs begin or
 * end, while one is under way (nftopia-mobile-app/stores/offlineStore.ts).
 */
module OfflineOverlap {
  import opened OfflineQueue

  /** A run under way: the queue it took, how many of its items were tried, and which stay. */
  datatype Task = Task(items: seq<Item>, done: nat, remaining: seq<Item>, ok: Outcomes)

  datatype State = State(queue: seq<Item>, tasks: map<nat, Task>, nextId: nat)

  const EMPTY := State([], map[], 0)

  datatype Event =
    | Add(item: Item)
    | Begin(ok: Outcomes)
    | TryNext(id: nat)
    | Finish(id: nat)

  /** `processQueue` reads the queue once, tries its items one await at a time, and at the end replaces the queue. */
  function Step(s: State, e: Event): State {
    match e
    case Add(item) => s.(queue := s.queue + [item])
    case Begin(ok) =>
      if s.queue == [] then s else s.(tasks := s.tasks[s.nextId := Task(s.queue, 0, [], ok)], nextId := s.nextId + 1)
    case TryNext(id) =>
      if id !in s.tasks || s.tasks[id].done >= |s.tasks[id].items| then s
      else
        var t := s.tasks[id];
        s.(tasks := s.tasks[id := t.(done := t.done + 1, remaining := t.remaining + Left(t.items[t.done], t.ok))])
    case Finish(id) =>
      if id !in s.tasks || s.tasks[id].done < |s.tasks[id].items| then s
      else s.(queue := s.tasks[id].remaining, tasks := s.tasks - {id})
  }

  function Run(es: seq<Event>): State {
    if es == [] then EMPTY else Step(Run(es[..|es| - 1]), es[|es| - 1])
  }

  ghost predicate Underway(t: Task) {
    t.done <= |t.items| && t.remaining + Remaining(t.items[t.done..], t.ok) == Remaining(t.items, t.ok)
  }

  lemma TryNextUnderway(t: Task)
    requires Underway(t) && t.done < |t.items|
    ensures Underway(t.(done := t.done + 1, remaining := t.remaining + Left(t.items[t.done], t.ok)))
  {
    RemainingNext(t.remaining, t.items, t.done, t.ok);
  }

  /** The run with this id is under way on these items, or has ended. */
  ghost predicate Took(s: State, id: nat, items: seq<Item>, ok: Outcomes) {
    id < s.nextId && (id in s.tasks ==> Underway(s.tasks[id]) && s.tasks[id].items == items && s.tasks[id].ok == ok)
  }

  lemma StepTook(s: State, e: Event, id: nat, items: seq<Item>, ok: Outcomes)
    requires Took(s, id, items, ok)
    ensures Took(Step(s, e), id, items, ok)
  {
    if e == TryNext(id) && id in s.tasks && s.tasks[id].done < |items| {
      TryNextUnderway(s.tasks[id]);
    }
  }

  lemma {:induction false} StillTook(before: seq<Event>, ok: Outcomes, during: seq<Event>)
    requires Run(before).queue != []
    ensures Took(Run(before + [Begin(ok)] + during), Run(before).nextId, Run(before).queue, ok)
    decreases |during|
  {
    var es := before + [Begin(ok)] + during;
    if during == [] {
      assert es[..|es| - 1] == before && es[|es| - 1] == Begin(ok);
    } else {
      assert es[..|es| - 1] == before + [Begin(ok)] + during[..|during| - 1];
      StillTook(before, ok, during[..|during| - 1]);
      StepTook(Run(es[..|es| - 1]), during[|during| - 1], Run(before).nextId, Run(before).queue, ok);
    }
  }

  function Added(es: seq<Event>): seq<Item> {
    if es == [] then []
    else Added(es[..|es| - 1]) + (if es[|es| - 1].Add? then [es[|es| - 1].item] else [])
  }

  lemma {:induction false} LeftIds(items: seq<Item>, ok: Outcomes)
    ensures forall x :: x in Remaining(items, ok) ==> exists y :: y in items && y.id == x.id
    decreases |items|
  {
    if items != [] {
      LeftIds(items[1..], ok);
      assert items == [items[0]] + items[1..];
    }
  }

  /**
   * When a run ends, it ends for good, and the queue is what that run leaves of the queue it began with, whatever was
   * added and whatever other runs ended meanwhile. Every item added during the run under an id of
   * its own is gone, tried or not, unless another run under way has taken it.
   */
  lemma RunOverwrites(before: seq<Event>, ok: Outcomes, during: seq<Event>)
    requires Run(before).queue != []
    requires var s, id := Run(before + [Begin(ok)] + during), Run(before).nextId;
             id in s.tasks && s.tasks[id].done == |s.tasks[id].items|
    ensures var after := Step(Run(before + [Begin(ok)] + during), Finish(Run(before).nextId)).queue;
            && Run(before).nextId !in Step(Run(before + [Begin(ok)] + during), Finish(Run(before).nextId)).tasks
            && after == Remaining(Run(before).queue, ok)
            && forall x :: x in Added(during) && (forall y :: y in Run(before).queue ==> y.id != x.id) ==> x !in after
  {
    StillTook(before, ok, during);
    LeftIds(Run(before).queue, ok);
  }

  /** `n` of the items of a run are tried. */
  function Tries(id: nat, n: nat): seq<Event> {
    seq(n, _ => TryNext(id))
  }

  lemma {:induction false} TriesGoOn(es: seq<Event>, id: nat, n: nat)
    requires id in Run(es).tasks && Run(es).tasks[id].done + n <= |Run(es).tasks[id].items|
    ensures var s, s' := Run(es), Run(es + Tries(id, n));
            && s'.queue == s.queue && id in s'.tasks
            && s'.tasks[id].items == s.tasks[id].items && s'.tasks[id].done == s.tasks[id].done + n
    decreases n
  {
    var all := es + Tries(id, n);
    if n == 0 {
      assert all == es;
    } else {
      assert all[..|all| - 1] == es + Tries(id, n - 1) && all[|all| - 1] == TryNext(id);
      TriesGoOn(es, id, n - 1);
    }
  }

  /** From every run with something queued: an item added right after the next run has begun is queued until that ends, and then it is lost. */
  lemma AddedDuringRunIsLost(before: seq<Event>, ok: Outcomes, item: Item)
    requires Run(before).queue != [] && forall y :: y in Run(before).queue ==> y.id != item.id
    ensures var items, id := Run(before).queue, Run(before).nextId;
            var s := Run(before + [Begin(ok)] + ([Add(item)] + Tries(id, |items|)));
            && s.queue == items + [item]
            && Step(s, Finish(id)).queue == Remaining(items, ok) && item !in Step(s, Finish(id)).queue
  {
    var items, id := Run(before).queue, Run(before).nextId;
    var during := [Add(item)] + Tries(id, |items|);
    var begun := before + [Begin(ok)];
    var added := begun + [Add(item)];
    assert begun[..|before|] == before && added[..|begun|] == begun;
    assert before + [Begin(ok)] + during == added + Tries(id, |items|);
    TriesGoOn(added, id, |items|);
    RunOverwrites(before, ok, during);
    LeftIds(items, ok);
  }

  /** A second run begun before the first has ended takes the same items: each is tried by both. With nothing queued no run begins. */
  lemma OverlappingRunsShareItems(s: State, ok: Outcomes, ok': Outcomes)
    ensures var t := Step(Step(s, Begin(ok)), Begin(ok'));
            if s.queue == [] then t == s
            else s.nextId in t.tasks && s.nextId + 1 in t.tasks && t.tasks[s.nextId].items == s.queue == t.tasks[s.nextId + 1].items
  {
  }
}
