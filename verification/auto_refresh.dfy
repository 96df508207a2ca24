/**
 * `useAutoRefresh`: a `refresh` callback that does nothing while a refresh is in flight, a
 * `lastRefreshed` time set only by a refresh that completed, and an effect that installs an
 * interval calling `refresh` while enabled and clears it in its cleanup.
 *
 * Everything asynchronous is an explicit event: `Refresh` is a call of `refresh` (from the
 * user or from `Tick`, the live interval firing), `Settle` is `onRefresh` completing or
 * throwing, `Effect` is the effect running with a given `enabled`, preceded by the previous
 * run's cleanup, and `Unmount` runs the last cleanup.
 */
module AutoRefresh {
  import opened Common

  /** What the hook's state amounts to: the flags, the number of live intervals, whether
   *  `intervalRef.current` holds one, whether a cleanup is registered, and how many times
   *  `onRefresh` was invoked. */
  datatype Refresher = Refresher(
    isRefreshing: bool,
    lastRefreshed: Option<int>,
    liveIntervals: nat,
    intervalSet: bool,
    cleanupInstalled: bool,
    calls: nat)

  datatype RefreshEvent = Refresh | Tick | Settle(ok: bool, now: int) | Effect(enabled: bool) | Unmount

  /** `useState(false)`, `useState<Date | null>(null)`, `useRef(null)`, before any effect. */
  const Initial := Refresher(false, None, 0, false, false, 0)

  /** `if (intervalRef.current) { clearInterval(intervalRef.current); intervalRef.current = null; }` */
  function ClearRef(s: Refresher): Refresher {
    if s.intervalSet then
      s.(liveIntervals := if s.liveIntervals > 0 then s.liveIntervals - 1 else 0, intervalSet := false)
    else s
  }

  /** The registered cleanup, if any, runs and is then gone. */
  function RunCleanup(s: Refresher): Refresher {
    if s.cleanupInstalled then ClearRef(s).(cleanupInstalled := false) else s
  }

  /** `refresh()`: skipped while refreshing; otherwise the flag goes up and `onRefresh` is invoked. */
  function CallRefresh(s: Refresher): Refresher {
    if s.isRefreshing then s else s.(isRefreshing := true, calls := s.calls + 1)
  }

  /** One event's effect on the hook. */
  function Step(s: Refresher, e: RefreshEvent): Refresher {
    match e
    case Refresh => CallRefresh(s)
    case Tick => if s.liveIntervals > 0 then CallRefresh(s) else s
    case Settle(ok, now) =>
      // a completion only follows a refresh that is in flight
      if !s.isRefreshing then s
      else s.(isRefreshing := false, lastRefreshed := if ok then Some(now) else s.lastRefreshed)
    case Effect(enabled) =>
      var s1 := RunCleanup(s);
      if !enabled then ClearRef(s1)
      else s1.(liveIntervals := s1.liveIntervals + 1, intervalSet := true, cleanupInstalled := true)
    case Unmount =>
      RunCleanup(s)
  }

  function Replay(s: Refresher, events: seq<RefreshEvent>): Refresher {
    if events == [] then s else Step(Replay(s, events[..|events| - 1]), events[|events| - 1])
  }

  /** At most one interval is live, it is the one in the ref, and the ref is set exactly while a cleanup is registered. */
  predicate OneInterval(s: Refresher) {
    && s.liveIntervals <= 1
    && (s.liveIntervals == 1 <==> s.intervalSet)
    && (s.intervalSet <==> s.cleanupInstalled)
  }

  lemma StepKeepsOneInterval(s: Refresher, e: RefreshEvent)
    requires OneInterval(s)
    ensures OneInterval(Step(s, e))
  {
  }

  /** Across any sequence of refreshes, ticks and enable/disable cycles there is never more than one live interval. */
  lemma {:induction false} NeverTwoIntervals(events: seq<RefreshEvent>)
    ensures OneInterval(Replay(Initial, events))
    ensures Replay(Initial, events).liveIntervals <= 1
  {
    if events != [] {
      NeverTwoIntervals(events[..|events| - 1]);
      StepKeepsOneInterval(Replay(Initial, events[..|events| - 1]), events[|events| - 1]);
    }
  }

  /** A call of `refresh` while one is in flight changes nothing and does not invoke `onRefresh`. */
  lemma GuardSkipsWhileRefreshing(s: Refresher)
    requires s.isRefreshing
    ensures Step(s, Refresh) == s && Step(s, Tick) == s
  {
  }

  /** `onRefresh` is invoked once per refresh that started, and the flag is down once it settled, successfully or not. */
  lemma RefreshLifecycle(s: Refresher, ok: bool, now: int)
    requires !s.isRefreshing
    ensures var started := Step(s, Refresh);
      started.isRefreshing && started.calls == s.calls + 1
    ensures var settled := Step(Step(s, Refresh), Settle(ok, now));
      !settled.isRefreshing && settled.lastRefreshed == (if ok then Some(now) else s.lastRefreshed)
  {
  }

  /** The refresh time shown is always the time of some refresh that completed without throwing. */
  lemma {:induction false} LastRefreshedIsASuccess(events: seq<RefreshEvent>)
    ensures var last := Replay(Initial, events).lastRefreshed;
      last.Some? ==> exists i :: 0 <= i < |events| && events[i] == Settle(true, last.value)
  {
    if events != [] {
      var init := events[..|events| - 1];
      LastRefreshedIsASuccess(init);
      var e := events[|events| - 1];
      var last := Replay(Initial, events).lastRefreshed;
      assert Replay(Initial, events) == Step(Replay(Initial, init), e);
      if last.Some? && last != Replay(Initial, init).lastRefreshed {
        assert e.Settle? && e.ok && last == Some(e.now);
        assert events[|events| - 1] == Settle(true, last.value);
      } else if last.Some? {
        var i :| 0 <= i < |init| && init[i] == Settle(true, last.value);
        assert events[i] == init[i];
      }
    }
  }

  /** Disabling leaves no interval live and the ref empty. */
  lemma DisableClears(s: Refresher)
    requires OneInterval(s)
    ensures Step(s, Effect(false)).liveIntervals == 0 && !Step(s, Effect(false)).intervalSet
  {
  }

  /** `clearInterval(id)`: the interval with that handle stops. */
  function Without(ids: seq<nat>, id: nat): (r: seq<nat>)
    ensures forall x :: x in r <==> x in ids && x != id
  {
    if ids == [] then []
    else (if ids[0] == id then [] else [ids[0]]) + Without(ids[1..], id)
  }

  lemma WithoutOnly(ids: seq<nat>, id: nat)
    requires |ids| == 1 && ids[0] == id
    ensures Without(ids, id) == []
  {
    assert ids[1..] == [];
  }

  /** The hook's state in one component instance. */
  class AutoRefresher {
    var isRefreshing: bool
    var lastRefreshed: Option<int>
    var intervalRef: Option<nat>
    /** Handles of the intervals set and not cleared. */
    var intervals: seq<nat>
    /** Whether the last effect run left a cleanup to run. */
    var cleanupInstalled: bool
    /** How many times `onRefresh` has been invoked. */
    var calls: nat
    var nextId: nat

    /** The ref holds the one live interval, or nothing when none is live. */
    ghost predicate RefMatches()
      reads this
    {
      && |intervals| <= 1
      && (intervalRef.Some? <==> |intervals| == 1)
      && (intervalRef.Some? ==> intervals[0] == intervalRef.value)
    }

    /** The ref matches the live intervals, and every live handle was issued before `nextId`. */
    ghost predicate Valid()
      reads this
    {
      && RefMatches()
      && (intervalRef.Some? <==> cleanupInstalled)
      && forall h :: h in intervals ==> h < nextId
    }

    function Abs(): Refresher
      reads this
    {
      Refresher(isRefreshing, lastRefreshed, |intervals|, intervalRef.Some?, cleanupInstalled, calls)
    }

    constructor ()
      ensures Valid() && Abs() == Initial
    {
      isRefreshing := false;
      lastRefreshed := None;
      intervalRef := None;
      intervals := [];
      cleanupInstalled := false;
      calls := 0;
      nextId := 0;
    }

    /** `refresh()`: skipped while refreshing; otherwise the flag goes up and `onRefresh` is invoked. */
    method Refresh() returns (invoked: bool)
      requires Valid()
      modifies this
      ensures Valid()
      ensures Abs() == Step(old(Abs()), RefreshEvent.Refresh)
      ensures invoked == !old(isRefreshing)
      ensures intervals == old(intervals) && intervalRef == old(intervalRef) && nextId == old(nextId)
    {
      if isRefreshing {
        return false;
      }
      isRefreshing := true;
      calls := calls + 1;
      invoked := true;
    }

    /** The live interval fires and calls `refresh`; with no live interval nothing fires. */
    method Tick() returns (invoked: bool)
      requires Valid()
      modifies this
      ensures Valid()
      ensures Abs() == Step(old(Abs()), RefreshEvent.Tick)
      ensures invoked == (old(intervals) != [] && !old(isRefreshing))
      ensures intervals == old(intervals) && intervalRef == old(intervalRef) && nextId == old(nextId)
    {
      if intervals == [] {
        return false;
      }
      invoked := Refresh();
    }

    /** `onRefresh` settled: on success `lastRefreshed` is `now`; either way the flag drops (`finally`). */
    method Settle(ok: bool, now: int)
      requires Valid() && isRefreshing
      modifies this
      ensures Valid()
      ensures Abs() == Step(old(Abs()), RefreshEvent.Settle(ok, now))
      ensures intervals == old(intervals) && intervalRef == old(intervalRef) && nextId == old(nextId)
    {
      if ok {
        lastRefreshed := Some(now);
      }
      isRefreshing := false;
    }

    /** Clears the interval the ref holds, if any, and empties the ref. */
    method ClearIntervalRef()
      requires RefMatches()
      modifies this
      ensures RefMatches()
      ensures intervalRef == None && intervals == []
      ensures Abs() == ClearRef(old(Abs()))
      ensures isRefreshing == old(isRefreshing) && lastRefreshed == old(lastRefreshed) && calls == old(calls)
      ensures nextId == old(nextId)
    {
      if intervalRef.Some? {
        WithoutOnly(intervals, intervalRef.value);
        intervals := Without(intervals, intervalRef.value);
        intervalRef := None;
      }
    }

    /** The previous cleanup runs, then the effect: disabled clears the ref, enabled sets a fresh interval and registers a cleanup. */
    method Effect(enabled: bool)
      requires Valid()
      modifies this
      ensures Valid()
      ensures Abs() == Step(old(Abs()), RefreshEvent.Effect(enabled))
      ensures enabled ==> intervals == [old(nextId)] && intervalRef == Some(old(nextId))
      ensures !enabled ==> intervals == [] && intervalRef == None
      // the new handle was never handed out before, so it is none of the intervals live before
      ensures enabled ==> old(nextId) !in old(intervals) && nextId == old(nextId) + 1
      ensures !enabled ==> nextId == old(nextId)
    {
      if cleanupInstalled {
        ClearIntervalRef();
        cleanupInstalled := false;
      }
      if !enabled {
        ClearIntervalRef();
        return;
      }
      var id := nextId;
      nextId := nextId + 1;
      intervals := intervals + [id];
      intervalRef := Some(id);
      cleanupInstalled := true;
    }

    /** The component unmounts: the registered cleanup runs. */
    method Unmount()
      requires Valid()
      modifies this
      ensures Valid()
      ensures Abs() == Step(old(Abs()), RefreshEvent.Unmount)
      ensures intervals == [] && intervalRef == None
      ensures nextId == old(nextId)
    {
      if cleanupInstalled {
        ClearIntervalRef();
        cleanupInstalled := false;
      }
    }
  }

  /** Drives one hook through `events`; a completion without a refresh in flight does not occur and is skipped. */
  method RunAutoRefresh(events: seq<RefreshEvent>) returns (final: Refresher)
    ensures final == Replay(Initial, events)
    ensures final.liveIntervals <= 1 && (final.liveIntervals == 1 <==> final.intervalSet)
  {
    var hook := new AutoRefresher();
    for i := 0 to |events|
      invariant hook.Valid()
      invariant hook.Abs() == Replay(Initial, events[..i])
    {
      assert events[..i + 1][..i] == events[..i];
      match events[i] {
        case Refresh =>
          var _ := hook.Refresh();
        case Tick =>
          var _ := hook.Tick();
        case Settle(ok, now) =>
          if hook.isRefreshing {
            hook.Settle(ok, now);
          }
        case Effect(enabled) =>
          hook.Effect(enabled);
        case Unmount =>
          hook.Unmount();
      }
    }
    assert events[..|events|] == events;
    final := hook.Abs();
  }
}
