/**
 * The two debouncers of the dashboard. `useDebounce` keeps a value, the debounced copy of it
 * and a pending flag, and every `setValue` replaces the scheduled timer by a new one carrying
 * the new value. `debounce(func, wait)` returns a closure that reschedules `func` with the
 * latest arguments on every call.
 *
 * Timers are explicit: a scheduled timer sits in `timers` until it fires (the `TimerFires`
 * event) or is cleared. How long a timer waits is not modelled; only which timers are
 * pending, and what they carry, is.
 */
module Debounce {
  import opened Common

  /** A scheduled `setTimeout` callback: its handle and the value or arguments it captured. */
  datatype Timer<+T> = Timer(id: nat, payload: T)

  /** `clearTimeout(id)`: the timer with that handle no longer fires; the others are kept in order. */
  function Cancel<T>(timers: seq<Timer<T>>, id: nat): (r: seq<Timer<T>>)
    ensures forall i :: 0 <= i < |r| ==> r[i] in timers && r[i].id != id
    ensures forall i :: 0 <= i < |timers| && timers[i].id != id ==> timers[i] in r
    ensures |r| <= |timers|
  {
    if timers == [] then []
    else (if timers[0].id == id then [] else [timers[0]]) + Cancel(timers[1..], id)
  }

  /** A one-timer queue loses its timer when that timer's handle is cleared. */
  lemma CancelOnly<T>(timers: seq<Timer<T>>, id: nat)
    requires |timers| == 1 && timers[0].id == id
    ensures Cancel(timers, id) == []
  {
    assert timers[1..] == [];
  }

  // ---------------------------------------------------------------------------------------
  // useDebounce

  /** What the component sees of the hook: `value`, `debouncedValue` and `isPending`. */
  datatype HookState<+T> = HookState(value: T, debouncedValue: T, isPending: bool)

  /** What happens to the hook: a `setValue(v)` call, or its pending timer firing. */
  datatype HookEvent<+T> = Set(v: T) | TimerFires

  /**
   * One event's effect: `setValue` shows the new value at once and marks it pending; the
   * timer, when one is pending, publishes the value it captured, which is the latest one.
   */
  function HookStep<T>(s: HookState<T>, e: HookEvent<T>): HookState<T> {
    match e
    case Set(v) => HookState(v, s.debouncedValue, true)
    case TimerFires => if s.isPending then HookState(s.value, s.value, false) else s
  }

  /** The hook's state after a sequence of events, starting from `s`. */
  function Replay<T>(s: HookState<T>, events: seq<HookEvent<T>>): HookState<T> {
    if events == [] then s
    else HookStep(Replay(s, events[..|events| - 1]), events[|events| - 1])
  }

  /** The `setValue` calls of a burst, one per value. */
  function Sets<T>(vs: seq<T>): (r: seq<HookEvent<T>>)
    ensures |r| == |vs|
    ensures forall i :: 0 <= i < |vs| ==> r[i] == Set(vs[i])
  {
    if vs == [] then [] else Sets(vs[..|vs| - 1]) + [Set(vs[|vs| - 1])]
  }

  /** `debouncedValue` changes only when a timer fires. */
  lemma {:induction false} DebouncedChangesOnlyOnFire<T>(s: HookState<T>, events: seq<HookEvent<T>>)
    requires forall i :: 0 <= i < |events| ==> events[i] != TimerFires
    ensures Replay(s, events).debouncedValue == s.debouncedValue
  {
    if events != [] {
      DebouncedChangesOnlyOnFire(s, events[..|events| - 1]);
    }
  }

  /**
   * A burst of `setValue` calls shows the last value at once and leaves it pending with the
   * debounced value untouched; once the timer fires, the debounced value is the last value and
   * nothing is pending.
   */
  lemma {:induction false} BurstSettles<T>(s: HookState<T>, vs: seq<T>)
    requires vs != []
    ensures var during := Replay(s, Sets(vs));
      during == HookState(vs[|vs| - 1], s.debouncedValue, true)
    ensures Replay(s, Sets(vs) + [TimerFires]) == HookState(vs[|vs| - 1], vs[|vs| - 1], false)
  {
    var es := Sets(vs);
    assert es[..|es| - 1] == Sets(vs[..|vs| - 1]);
    DebouncedChangesOnlyOnFire(s, es[..|es| - 1]);
    assert (es + [TimerFires])[..|es|] == es;
  }

  /** The state of one `useDebounce` instance. */
  class DebouncedValue<T> {
    var value: T
    var debouncedValue: T
    var isPending: bool
    /** The handle the hook remembers; a timer that has fired is not forgotten. */
    var timeoutId: Option<nat>
    /** Timers scheduled and neither fired nor cleared. */
    var timers: seq<Timer<T>>
    var nextId: nat

    /** At most one timer is pending; it is the remembered one and it carries the current value. */
    ghost predicate Valid()
      reads this
    {
      && |timers| <= 1
      && (isPending <==> |timers| == 1)
      && (|timers| == 1 ==> timers[0].payload == value && timeoutId == Some(timers[0].id))
    }

    /** What the component sees. */
    function State(): HookState<T>
      reads this
    {
      HookState(value, debouncedValue, isPending)
    }

    /** `useDebounce(initialValue)`: both values start at `initialValue`, nothing pending. */
    constructor (initialValue: T)
      ensures Valid()
      ensures State() == HookState(initialValue, initialValue, false)
      ensures timeoutId == None && timers == []
    {
      value := initialValue;
      debouncedValue := initialValue;
      isPending := false;
      timeoutId := None;
      timers := [];
      nextId := 0;
    }

    /**
     * `setValue(newValue)`: the value and the pending flag change at once, the remembered timer
     * is cleared and a fresh one carrying `newValue` becomes the only pending timer.
     */
    method SetValue(newValue: T)
      requires Valid()
      modifies this
      ensures Valid()
      ensures State() == HookStep(old(State()), Set(newValue))
      ensures timers == [Timer(old(nextId), newValue)] && timeoutId == Some(old(nextId))
      ensures nextId == old(nextId) + 1
    {
      value := newValue;
      isPending := true;
      if timeoutId.Some? {
        if timers != [] {
          CancelOnly(timers, timeoutId.value);
        }
        timers := Cancel(timers, timeoutId.value);
      }
      var id := nextId;
      nextId := nextId + 1;
      timers := timers + [Timer(id, newValue)];
      timeoutId := Some(id);
    }

    /**
     * The pending timer fires: the debounced value becomes the value it captured and the flag
     * drops. With no timer pending nothing happens.
     */
    method TimerFires()
      requires Valid()
      modifies this
      ensures Valid()
      ensures State() == HookStep(old(State()), HookEvent.TimerFires)
      ensures timers == [] && timeoutId == old(timeoutId) && nextId == old(nextId)
    {
      if timers != [] {
        debouncedValue := timers[0].payload;
        isPending := false;
        timers := [];
      }
    }
  }

  /** Drives one hook through `events`: its final state is the one `Replay` describes. */
  method RunHook<T>(initialValue: T, events: seq<HookEvent<T>>) returns (final: HookState<T>)
    ensures final == Replay(HookState(initialValue, initialValue, false), events)
  {
    var hook := new DebouncedValue(initialValue);
    var init := hook.State();
    for i := 0 to |events|
      invariant hook.Valid()
      invariant hook.State() == Replay(init, events[..i])
    {
      assert events[..i + 1][..i] == events[..i];
      match events[i] {
        case Set(v) => hook.SetValue(v);
        case TimerFires => hook.TimerFires();
      }
    }
    assert events[..|events|] == events;
    final := hook.State();
  }

  // ---------------------------------------------------------------------------------------
  // debounce(func, wait)

  /** What happens to a debounced closure: a call with arguments, or its pending timer firing. */
  datatype CallEvent<+A> = Call(args: A) | Fire

  /** The arguments of the call still waiting to reach `func`, if any. */
  function Waiting<A>(events: seq<CallEvent<A>>): Option<A> {
    if events == [] then None
    else match events[|events| - 1]
      case Call(a) => Some(a)
      case Fire => None
  }

  /** The arguments `func` is invoked with, in order. */
  function Invocations<A>(events: seq<CallEvent<A>>): seq<A> {
    if events == [] then []
    else
      var init := events[..|events| - 1];
      match events[|events| - 1]
      case Call(_) => Invocations(init)
      case Fire => Invocations(init) + (match Waiting(init) case Some(a) => [a] case None => [])
  }

  /** The calls of a burst, one per argument list. */
  function Calls<A>(as_: seq<A>): (r: seq<CallEvent<A>>)
    ensures |r| == |as_|
    ensures forall i :: 0 <= i < |as_| ==> r[i] == Call(as_[i])
  {
    if as_ == [] then [] else Calls(as_[..|as_| - 1]) + [Call(as_[|as_| - 1])]
  }

  /** Calls alone never invoke `func`. */
  lemma {:induction false} CallsInvokeNothing<A>(prefix: seq<CallEvent<A>>, as_: seq<A>)
    ensures Invocations(prefix + Calls(as_)) == Invocations(prefix)
  {
    if as_ != [] {
      var init := as_[..|as_| - 1];
      assert (prefix + Calls(as_))[..|prefix + Calls(as_)| - 1] == prefix + Calls(init);
      CallsInvokeNothing(prefix, init);
    } else {
      assert prefix + Calls(as_) == prefix;
    }
  }

  /**
   * A burst of calls followed by the timer invokes `func` exactly once, with the last call's
   * arguments, after whatever the events before the burst invoked.
   */
  lemma {:induction false} BurstInvokesOnce<A>(prefix: seq<CallEvent<A>>, as_: seq<A>)
    requires as_ != []
    ensures Invocations(prefix + Calls(as_) + [Fire]) == Invocations(prefix) + [as_[|as_| - 1]]
  {
    var es := prefix + Calls(as_);
    assert (es + [Fire])[..|es|] == es;
    CallsInvokeNothing(prefix, as_);
    assert es[|es| - 1] == Call(as_[|as_| - 1]);
  }

  /** After the timer fires nothing waits, so the next call starts a fresh burst. */
  lemma {:induction false} FireEndsBurst<A>(before: seq<CallEvent<A>>, after: seq<CallEvent<A>>)
    ensures Waiting(before + [Fire]) == None
    ensures Invocations(before + [Fire] + after) == Invocations(before + [Fire]) + Invocations(after)
    ensures Waiting(before + [Fire] + after) == Waiting(after)
  {
    var head := before + [Fire];
    if after != [] {
      var init := after[..|after| - 1];
      assert (head + after)[..|head + after| - 1] == head + init;
      assert (head + after)[|head + after| - 1] == after[|after| - 1];
      FireEndsBurst(before, init);
    } else {
      assert head + after == head;
    }
  }

  /** The closure's own state: the handle in `timeout` and the timers it scheduled. */
  class Debouncer<A> {
    var timeout: Option<nat>
    var timers: seq<Timer<A>>
    var nextId: nat

    /** A timer is pending exactly when `timeout` holds its handle. */
    ghost predicate Valid()
      reads this
    {
      && |timers| <= 1
      && (timeout.Some? <==> |timers| == 1)
      && (|timers| == 1 ==> timeout == Some(timers[0].id))
    }

    /** The arguments the pending timer captured, if one is pending. */
    function WaitingArgs(): Option<A>
      reads this
    {
      if timers == [] then None else Some(timers[0].payload)
    }

    /** `let timeout = null`. */
    constructor ()
      ensures Valid() && timeout == None && timers == []
    {
      timeout := None;
      timers := [];
      nextId := 0;
    }

    /** `executedFunction(...args)`: clear the pending timer, if any, and schedule a new one. */
    method Call(args: A)
      requires Valid()
      modifies this
      ensures Valid()
      ensures timers == [Timer(old(nextId), args)] && timeout == Some(old(nextId))
      ensures nextId == old(nextId) + 1
    {
      if timeout.Some? {
        CancelOnly(timers, timeout.value);
        timers := Cancel(timers, timeout.value);
      }
      var id := nextId;
      nextId := nextId + 1;
      timers := timers + [Timer(id, args)];
      timeout := Some(id);
    }

    /** The pending timer runs `later`: `timeout` becomes null and `func` gets the captured arguments. */
    method Fire() returns (invoked: Option<A>)
      requires Valid()
      modifies this
      ensures Valid()
      ensures invoked == old(WaitingArgs())
      ensures timers == [] && timeout == None && nextId == old(nextId)
    {
      if timers == [] {
        invoked := None;
      } else {
        invoked := Some(timers[0].payload);
        timers := [];
        timeout := None;
      }
    }
  }

  /** Drives one debounced closure through `events`: `func` sees exactly `Invocations(events)`. */
  method RunDebounced<A>(events: seq<CallEvent<A>>) returns (invoked: seq<A>, waiting: Option<A>)
    ensures invoked == Invocations(events)
    ensures waiting == Waiting(events)
    ensures |invoked| <= |events|
  {
    var d := new Debouncer<A>();
    invoked := [];
    for i := 0 to |events|
      invariant d.Valid()
      invariant d.WaitingArgs() == Waiting(events[..i])
      invariant invoked == Invocations(events[..i])
      invariant |invoked| <= i
    {
      assert events[..i + 1][..i] == events[..i];
      match events[i] {
        case Call(a) =>
          d.Call(a);
        case Fire =>
          var r := d.Fire();
          if r.Some? {
            invoked := invoked + [r.value];
          }
      }
    }
    assert events[..|events|] == events;
    waiting := d.WaitingArgs();
  }
}
