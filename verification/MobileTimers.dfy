/**
 * When a session refreshes itself: which timer is set by which event, when it fires, and what it
 * starts (nftopia-mobile-app/stores/authStore.ts).
 */
module MobileTimers {
  import opened Common
  import opened MobileSession
  import opened MobileLogout

  /** Two minutes before the expiry, but not sooner than in a second and not later than timers allow. */
  predicate DueFor(expiry: int, armedAt: int, due: int) {
    var wanted := (expiry - 120) * 1000;
    if wanted < armedAt + 1000 then due == armedAt + 1000
    else if wanted > armedAt + 2147483647 then due == armedAt + 2147483647
    else due == wanted
  }

  /** The only pending timer, set now for this expiry. */
  ghost predicate ArmedNow(timers: Timers, expiry: int, now: int, generation: nat) {
    exists h, due :: timers.pending == map[h := Timer(now, due - now, generation)] && timers.refreshTimer == Some(h) && DueFor(expiry, now, due)
  }

  lemma DelayIsDue(expiry: int, now: int)
    ensures DueFor(expiry, now, now + RefreshDelay(expiry, now))
  {
  }

  lemma PutArms(s: Screen, now: int, generation: nat, user: Option<string>, isAuthenticated: bool, expiry: Option<int>, session: Opening)
    requires TimerMatches(s, generation, now)
    ensures var s' := Put(s, now, generation, user, isAuthenticated, expiry, session);
            if isAuthenticated == s.isAuthenticated && expiry == s.expiry then s'.timers == s.timers
            else if isAuthenticated && expiry.Some? then ArmedNow(s'.timers, expiry.value, now, generation)
            else s'.timers.pending == map[]
  {
    ScreenMoves(s, generation, now, user, isAuthenticated, expiry, session);
    if expiry.Some? {
      DelayIsDue(expiry.value, now);
      var timer := Timer(now, now + RefreshDelay(expiry.value, now) - now, generation);
      assert ClearTimer(s.timers).pending[s.timers.nextHandle := timer] == map[s.timers.nextHandle := timer];
    }
  }

  /** What an event does to the pending timers: a changed session has its own or none, one that fires is gone, and a new generation has none. */
  ghost predicate TimersAfter(s: Session, e: Event, s': Session) {
    var a, b := s.screen, s'.screen;
    if b.isAuthenticated != a.isAuthenticated || b.expiry != a.expiry then
      if b.isAuthenticated && b.expiry.Some? then ArmedNow(b.timers, b.expiry.value, s.now, s.generation) else b.timers.pending == map[]
    else if e.TimerFires? && Enabled(s, e) then b.timers.pending == a.timers.pending - {e.handle}
    else if s'.generation != s.generation then b.timers.pending == map[]
    else b.timers == a.timers
  }

  lemma StepTimers(s: Session, e: Event)
    requires TimerMatches(s.screen, s.generation, s.now)
    ensures TimersAfter(s, e, Step(s, e))
  {
    if ResumesRefresh(e) && Enabled(s, e) {
      RefreshTimers(s, e);
    } else if ResumesLogin(e) && Enabled(s, e) {
      LoginTimers(s, e);
    } else if !ResumesRefresh(e) && !ResumesLogin(e) {
      OtherTimers(s, e);
    }
  }

  lemma OtherTimers(s: Session, e: Event)
    requires TimerMatches(s.screen, s.generation, s.now) && !ResumesRefresh(e) && !ResumesLogin(e)
    ensures TimersAfter(s, e, Step(s, e))
  {
    forall user, isAuthenticated, expiry, session {
      PutArms(s.screen, s.now, s.generation, user, isAuthenticated, expiry, session);
    }
    ScreenMoves(s.screen, s.generation, s.now, None, false, None, s.screen.session);
  }

  lemma LoginTimers(s: Session, e: Event)
    requires TimerMatches(s.screen, s.generation, s.now) && ResumesLogin(e) && Enabled(s, e)
    ensures TimersAfter(s, e, Step(s, e))
  {
    forall user, isAuthenticated, expiry, session {
      PutArms(s.screen, s.now, s.generation, user, isAuthenticated, expiry, session);
    }
  }

  lemma RefreshTimers(s: Session, e: Event)
    requires TimerMatches(s.screen, s.generation, s.now) && ResumesRefresh(e) && Enabled(s, e)
    ensures TimersAfter(s, e, Step(s, e))
  {
    forall user, isAuthenticated, expiry, session {
      PutArms(s.screen, s.now, s.generation, user, isAuthenticated, expiry, session);
    }
    ScreenMoves(s.screen, s.generation, s.now, None, false, None, s.screen.session);
  }

  /**
   * After every run an event that changes who is signed in or the expiry leaves exactly one timer, set
   * for the new expiry, if a session with one is shown then, and none otherwise; any other event
   * leaves the timers alone but for one that fires and for the start of a login or logout, which stops it.
   */
  lemma TimerSetIff(es: seq<Event>, e: Event)
    ensures TimersAfter(Run(INITIAL, es), e, Step(Run(INITIAL, es), e))
  {
    EveryInterleaving(es);
    StepTimers(Run(INITIAL, es), e);
  }

  /**
   * In every run a pending timer is due two minutes before the expiry of the session shown, as far as
   * timers allow; it does nothing before and then, unless a rotation is in flight, starts one.
   */
  lemma TimerFiresIff(es: seq<Event>, h: nat)
    requires h in Run(INITIAL, es).screen.timers.pending
    ensures var s := Run(INITIAL, es);
            var t, s' := s.screen.timers.pending[h], Step(s, TimerFires(h));
            && s.screen.isAuthenticated && s.screen.expiry.Some? && DueFor(s.screen.expiry.value, t.armedAt, t.armedAt + t.delay)
            && (if s.now < t.armedAt + t.delay then s' == s
                else && s'.screen.timers.pending == map[]
                     && (if s.flight.tasks == map[] then s'.flight.tasks == map[s.nextId := RefreshTask(s.generation, s.signIns, Rotating)]
                         else s'.flight.tasks == s.flight.tasks))
            && forall ms :: Step(s, Pass(ms)) == s.(now := s.now + ms)
  {
    EveryInterleaving(es);
    var s := Run(INITIAL, es);
    DelayIsDue(s.screen.expiry.value, s.screen.timers.pending[h].armedAt);
    assert s.screen.timers.pending - {h} == map[];
  }
}
