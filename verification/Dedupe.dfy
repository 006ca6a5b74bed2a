/**
 * The shared response cache and in-flight map of useOptimizedFetch, with every call split
 * at its await (nftopia-frontend/hooks/useOptimizedFetch.ts).
 */
module Dedupe {
  import opened Common

  /** A call either started the request it awaits or joined one. */
  datatype Call = Call(key: string, promise: nat, owner: bool)

  datatype Shared = Shared(
    staticCache: map<string, string>,
    dedupeMap: map<string, nat>,
    running: map<nat, string>,
    settled: map<nat, Option<string>>,
    waiting: map<nat, Call>,
    results: map<nat, Option<string>>,
    nextId: nat)

  const EMPTY := Shared(map[], map[], map[], map[], map[], map[], 0)

  datatype Event =
    | FetchData(key: string)
    | Forget(key: string)                             // the first half of refetch
    | Settles(promise: nat, data: Option<string>)     // None is a failure after the last retry
    | Resumes(call: nat)

  function Start(s: Shared, key: string): Shared {
    s.(running := s.running[s.nextId := key], dedupeMap := s.dedupeMap[key := s.nextId],
       waiting := s.waiting[s.nextId := Call(key, s.nextId, true)], nextId := s.nextId + 1)
  }

  function Step(s: Shared, e: Event): Shared {
    match e
    case FetchData(key) =>
      var id := s.nextId;
      if key in s.staticCache then s.(results := s.results[id := Some(s.staticCache[key])], nextId := id + 1)
      else if key in s.dedupeMap then s.(waiting := s.waiting[id := Call(key, s.dedupeMap[key], false)], nextId := id + 1)
      else Start(s, key)
    case Forget(key) => s.(staticCache := s.staticCache - {key})
    case Settles(p, data) =>
      if p !in s.running then s
      else s.(staticCache := if data.Some? then s.staticCache[s.running[p] := data.value] else s.staticCache,
              running := s.running - {p}, settled := s.settled[p := data])
    case Resumes(id) =>
      if id !in s.waiting || s.waiting[id].promise !in s.settled then s
      else
        var call := s.waiting[id];
        s.(waiting := s.waiting - {id}, results := s.results[id := s.settled[call.promise]],
           dedupeMap := if call.owner then s.dedupeMap - {call.key} else s.dedupeMap)
  }

  function Run(es: seq<Event>): Shared {
    if es == [] then EMPTY else Step(Run(es[..|es| - 1]), es[|es| - 1])
  }

  /**
   * The in-flight map holds exactly the requests whose starting call has not resumed, each
   * under its own key; every running request is one of them.
   */
  ghost predicate Inv(s: Shared) {
    && Owned(s) && Awaited(s) && Uncached(s)
    && Mapped(s) && Fresh(s)
  }

  ghost predicate Mapped(s: Shared) {
    forall key :: key in s.dedupeMap ==> s.dedupeMap[key] in s.waiting && s.waiting[s.dedupeMap[key]] == Call(key, s.dedupeMap[key], true)
  }

  ghost predicate Fresh(s: Shared) {
    forall id :: id in s.waiting || id in s.running || id in s.settled ==> id < s.nextId
  }

  /** A running request is awaited by the call that started it, which the map names. */
  ghost predicate Owned(s: Shared) {
    && (forall p :: p in s.running ==> p in s.waiting && s.waiting[p] == Call(s.running[p], p, true) && p !in s.settled)
    && (forall id :: id in s.waiting && s.waiting[id].owner ==>
          s.waiting[id].promise == id && s.waiting[id].key in s.dedupeMap && s.dedupeMap[s.waiting[id].key] == id)
  }

  ghost predicate Awaited(s: Shared) {
    forall id :: id in s.waiting ==> s.waiting[id].promise in s.running || s.waiting[id].promise in s.settled
  }

  /** While a key is being fetched no answer for it is cached. */
  ghost predicate Uncached(s: Shared) {
    forall p :: p in s.running ==> s.running[p] !in s.staticCache
  }

  lemma StartInv(s: Shared, key: string)
    requires Inv(s) && key !in s.dedupeMap && key !in s.staticCache
    ensures Inv(Start(s, key))
  {
    StartMapped(s, key);
    StartAwaited(s, key);
    StartOwned(s, key);
  }

  lemma StartMapped(s: Shared, key: string)
    requires Mapped(s) && Fresh(s)
    ensures Mapped(Start(s, key)) && Fresh(Start(s, key))
  {
  }

  lemma StartAwaited(s: Shared, key: string)
    requires Awaited(s) && Uncached(s) && key !in s.staticCache
    ensures Awaited(Start(s, key)) && Uncached(Start(s, key))
  {
  }

  lemma StartOwned(s: Shared, key: string)
    requires Owned(s) && Fresh(s) && key !in s.dedupeMap
    ensures Owned(Start(s, key))
  {
  }

  lemma FetchInv(s: Shared, key: string)
    requires Inv(s)
    ensures Inv(Step(s, FetchData(key)))
  {
    if key !in s.staticCache {
      if key in s.dedupeMap {
        assert Awaited(Step(s, FetchData(key)));
      } else {
        StartInv(s, key);
      }
    }
  }

  lemma SettlesInv(s: Shared, p: nat, data: Option<string>)
    requires Inv(s)
    ensures Inv(Step(s, Settles(p, data)))
  {
  }

  lemma ResumesInv(s: Shared, id: nat)
    requires Inv(s)
    ensures Inv(Step(s, Resumes(id)))
  {
  }

  lemma StepInv(s: Shared, e: Event)
    requires Inv(s)
    ensures Inv(Step(s, e))
  {
    match e {
      case FetchData(key) => FetchInv(s, key);
      case Forget(_) =>
      case Settles(p, data) => SettlesInv(s, p, data);
      case Resumes(id) => ResumesInv(s, id);
    }
  }

  lemma {:induction false} RunInv(es: seq<Event>)
    ensures Inv(Run(es))
    decreases |es|
  {
    if es != [] {
      RunInv(es[..|es| - 1]);
      StepInv(Run(es[..|es| - 1]), es[|es| - 1]);
    }
  }

  /** At most one request per cache key is in flight, and a call made meanwhile waits for that one. */
  lemma OneRequestPerKey(es: seq<Event>, p: nat, q: nat)
    requires p in Run(es).running && q in Run(es).running && Run(es).running[p] == Run(es).running[q]
    ensures p == q
    ensures var s, key := Run(es), Run(es).running[p];
            && key !in s.staticCache
            && var s' := Step(s, FetchData(key));
               s'.running == s.running && s'.waiting[s.nextId] == Call(key, p, false)
  {
    RunInv(es);
    var s := Run(es);
    assert s.waiting[p].owner && s.waiting[q].owner;
  }

  /** Every waiting call can resume once its request settles, and then gets exactly its outcome. */
  lemma WaitersShareTheOutcome(es: seq<Event>, id: nat)
    requires id in Run(es).waiting
    ensures var s := Run(es);
            || s.waiting[id].promise in s.running
            || (&& s.waiting[id].promise in s.settled
                && Step(s, Resumes(id)).results[id] == s.settled[s.waiting[id].promise])
  {
    RunInv(es);
  }

  /** A call that has its result has a number of its own and waits for nothing. */
  ghost predicate Returned(s: Shared) {
    && (forall id :: id in s.results ==> id < s.nextId && id !in s.waiting)
    && (forall id :: id in s.waiting ==> id < s.nextId)
  }

  lemma StepReturned(s: Shared, e: Event)
    requires Returned(s)
    ensures Returned(Step(s, e))
    ensures forall id :: id in s.results ==> id in Step(s, e).results && Step(s, e).results[id] == s.results[id]
  {
  }

  lemma {:induction false} AlwaysReturned(es: seq<Event>)
    ensures Returned(Run(es))
    decreases |es|
  {
    if es != [] {
      AlwaysReturned(es[..|es| - 1]);
      StepReturned(Run(es[..|es| - 1]), es[|es| - 1]);
    }
  }

  /** A call returns once: its result never changes, however the run goes on. */
  lemma {:induction false} ResultsFixed(es: seq<Event>, more: seq<Event>, id: nat)
    requires id in Run(es).results
    ensures id in Run(es + more).results && Run(es + more).results[id] == Run(es).results[id]
    decreases |more|
  {
    if more == [] {
      assert es + more == es;
    } else {
      var before := es + more[..|more| - 1];
      assert (es + more)[..|es + more| - 1] == before;
      ResultsFixed(es, more[..|more| - 1], id);
      AlwaysReturned(before);
      StepReturned(Run(before), more[|more| - 1]);
    }
  }

  // ----- What a later call gets -----

  /** The request for this key ends with this answer. */
  predicate Answers(s: Shared, e: Event, key: string, data: string) {
    e.Settles? && e.promise in s.running && s.running[e.promise] == key && e.data == Some(data)
  }

  /** The event leaves the answer to this key cached: it is no refetch of it, and no other answer to it. */
  predicate LeavesCached(s: Shared, e: Event, key: string) {
    e != Forget(key) && !(e.Settles? && e.promise in s.running && s.running[e.promise] == key && e.data.Some?)
  }

  /** The event at this place answers the key, and all since leave that cached. */
  ghost predicate AnsweredSince(es: seq<Event>, i: nat, key: string, data: string) {
    && i < |es| && Answers(Run(es[..i]), es[i], key, data)
    && forall j :: i < j < |es| ==> LeavesCached(Run(es[..j]), es[j], key)
  }

  predicate Caches(s: Shared, key: string, data: string) {
    key in s.staticCache && s.staticCache[key] == data
  }

  lemma StepCaches(s: Shared, e: Event, key: string, data: string)
    ensures Caches(Step(s, e), key, data) <==> Answers(s, e, key, data) || (Caches(s, key, data) && LeavesCached(s, e, key))
  {
  }

  lemma AnsweredLonger(before: seq<Event>, e: Event, i: nat, key: string, data: string)
    requires i < |before|
    ensures AnsweredSince(before + [e], i, key, data) <==> AnsweredSince(before, i, key, data) && LeavesCached(Run(before), e, key)
  {
    var es := before + [e];
    assert es[..|before|] == before;
    assert forall j :: 0 <= j < |before| ==> before[..j] == es[..j] && before[j] == es[j];
    if AnsweredSince(es, i, key, data) {
      assert LeavesCached(Run(es[..|before|]), es[|before|], key);
      forall j | i < j < |before| ensures LeavesCached(Run(before[..j]), before[j], key) {
        assert LeavesCached(Run(es[..j]), es[j], key);
      }
    }
  }

  lemma AnsweredGrows(before: seq<Event>, e: Event, key: string, data: string)
    ensures (exists i :: AnsweredSince(before + [e], i, key, data))
       <==> Answers(Run(before), e, key, data)
            || ((exists i :: AnsweredSince(before, i, key, data)) && LeavesCached(Run(before), e, key))
  {
    assert (before + [e])[..|before|] == before;
    forall i: nat | i < |before| {
      AnsweredLonger(before, e, i, key, data);
    }
    if Answers(Run(before), e, key, data) {
      assert AnsweredSince(before + [e], |before|, key, data);
    } else if i :| AnsweredSince(before, i, key, data) && LeavesCached(Run(before), e, key) {
      assert AnsweredSince(before + [e], i, key, data);
    }
  }

  /** In every run the cached answer to a key is exactly the last one a request for it brought, unless it was refetched since. */
  lemma {:induction false} CachedIff(es: seq<Event>, key: string, data: string)
    ensures Caches(Run(es), key, data) <==> exists i :: AnsweredSince(es, i, key, data)
    decreases |es|
  {
    if es != [] {
      var before, e := es[..|es| - 1], es[|es| - 1];
      assert es == before + [e];
      CachedIff(before, key, data);
      StepCaches(Run(before), e, key, data);
      AnsweredGrows(before, e, key, data);
    }
  }

  /** A later call gets that answer at once and starts nothing. */
  lemma CachedCallReturns(es: seq<Event>, i: nat, key: string, data: string)
    requires AnsweredSince(es, i, key, data)
    ensures var s, s' := Run(es), Step(Run(es), FetchData(key));
            s'.results == s.results[s.nextId := Some(data)] && s'.running == s.running && s'.waiting == s.waiting && s'.dedupeMap == s.dedupeMap
  {
    CachedIff(es, key, data);
  }

  /** Some request for the key brought an answer, and it was not refetched since. */
  ghost predicate Answered(es: seq<Event>, key: string) {
    exists data, i :: AnsweredSince(es, i, key, data)
  }

  lemma AnsweredIff(es: seq<Event>, key: string)
    ensures key in Run(es).staticCache <==> Answered(es, key)
  {
    if key in Run(es).staticCache {
      CachedIff(es, key, Run(es).staticCache[key]);
    }
    if Answered(es, key) {
      var data, i: nat :| AnsweredSince(es, i, key, data);
      CachedIff(es, key, data);
    }
  }

  /** A call goes to the network exactly if its key has no such answer and no call for it is under way: it then starts one request, for its own key. */
  lemma StartsRequestIff(es: seq<Event>, key: string)
    ensures var s, s' := Run(es), Step(Run(es), FetchData(key));
            if Answered(es, key) || key in s.dedupeMap then s'.running == s.running
            else s'.running == s.running[s.nextId := key] && s'.waiting == s.waiting[s.nextId := Call(key, s.nextId, true)]
  {
    AnsweredIff(es, key);
  }

  // ----- The maps, changed in place -----

  class OptimizedFetch {
    var staticCache: map<string, string>
    var dedupeMap: map<string, nat>
    // requests on the network, settled ones, suspended calls and what calls returned
    var running: map<nat, string>
    var settled: map<nat, Option<string>>
    var waiting: map<nat, Call>
    var results: map<nat, Option<string>>
    var nextId: nat

    function View(): Shared
      reads this
    {
      Shared(staticCache, dedupeMap, running, settled, waiting, results, nextId)
    }

    constructor ()
      ensures View() == EMPTY
    {
      staticCache, dedupeMap, running, settled, waiting, results, nextId := map[], map[], map[], map[], map[], map[], 0;
    }

    /** `fetchData` up to its await; a cached answer is returned at once. */
    method FetchData(key: string) returns (call: nat)
      modifies this
      ensures View() == Step(old(View()), Event.FetchData(key)) && call == old(nextId)
    {
      call, nextId := nextId, nextId + 1;
      if key in staticCache {
        results := results[call := Some(staticCache[key])];
        return;
      }
      if key in dedupeMap {
        waiting := waiting[call := Call(key, dedupeMap[key], false)];
        return;
      }
      running := running[call := key];
      dedupeMap := dedupeMap[key := call];
      waiting := waiting[call := Call(key, call, true)];
    }

    method Refetch(key: string) returns (call: nat)
      modifies this
      ensures View() == Step(Step(old(View()), Forget(key)), Event.FetchData(key)) && call == old(nextId)
    {
      staticCache := staticCache - {key};
      call := FetchData(key);
    }

    /** The request ends: a success is cached before anybody hears of it. */
    method Settles(promise: nat, data: Option<string>)
      requires promise in running
      modifies this
      ensures View() == Step(old(View()), Event.Settles(promise, data))
    {
      if data.Some? {
        staticCache := staticCache[running[promise] := data.value];
      }
      running := running - {promise};
      settled := settled[promise := data];
    }

    /** A waiting call goes on; the one that started the request takes it out of the map. */
    method Resumes(call: nat)
      requires call in waiting && waiting[call].promise in settled
      modifies this
      ensures View() == Step(old(View()), Event.Resumes(call))
    {
      var c := waiting[call];
      waiting := waiting - {call};
      results := results[call := settled[c.promise]];
      if c.owner {
        dedupeMap := dedupeMap - {c.key};
      }
    }
  }
}
