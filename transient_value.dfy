/**
 * `useTransientValue`: show a value and clear it again after a delay, unless it has been
 * replaced meanwhile. Browser timers are explicit: `live` maps each scheduled and not yet
 * cancelled or fired timeout handle to the value its callback captured, and firing is an event.
 * The delay itself is not modelled.
 */
module TransientValue {
  import opened Wrappers

  /** The hook's state: the value (`None` for `null`), `timeoutRef`, the live timers, and the next handle. */
  datatype State<T> = State(value: Option<T>, timeoutRef: Option<nat>, live: map<nat, T>, nextHandle: nat)

  datatype Event<T> = Show(nextValue: T) | Clear | Fire(handle: nat)

  function Initial<T>(): (s: State<T>)
    ensures s.value.None? && s.timeoutRef.None? && s.live == map[]
  {
    State(None, None, map[], 1)
  }

  /** Every live timer is the one `timeoutRef` holds, and `timeoutRef` never names a dead one. */
  predicate Valid<T>(s: State<T>) {
    (forall h | h in s.live :: s.timeoutRef == Some(h) && h < s.nextHandle)
    && (s.timeoutRef.Some? ==> s.timeoutRef.value in s.live)
  }

  /** At most one timeout is pending. */
  predicate AtMostOnePending<T>(s: State<T>) {
    forall h1, h2 | h1 in s.live && h2 in s.live :: h1 == h2
  }

  /** `clearTimeoutIfNeeded`. */
  function CancelPending<T>(s: State<T>): (r: State<T>)
    ensures r.timeoutRef.None? && r.value == s.value && r.nextHandle == s.nextHandle
    ensures Valid(s) ==> r.live == map[]
  {
    match s.timeoutRef
    case None => s
    case Some(h) => s.(live := s.live - {h}, timeoutRef := None)
  }

  function Step<T(==)>(s: State<T>, ev: Event<T>): (r: State<T>)
    ensures Valid(s) ==> Valid(r)
    ensures ev.Show? ==> r.value == Some(ev.nextValue) && r.timeoutRef == Some(s.nextHandle)
    ensures ev.Show? && Valid(s) ==> r.live == map[s.nextHandle := ev.nextValue]
    ensures ev.Clear? && Valid(s) ==> r.value.None? && r.timeoutRef.None? && r.live == map[]
    ensures ev.Fire? && ev.handle !in s.live ==> r == s
    ensures ev.Fire? && ev.handle in s.live ==>
      r.live == s.live - {ev.handle} && r.timeoutRef.None?
      && (s.value == Some(s.live[ev.handle]) ==> r.value.None?)
      && (s.value != Some(s.live[ev.handle]) ==> r.value == s.value)
  {
    match ev
    case Show(v) =>
      var cancelled := CancelPending(s.(value := Some(v)));
      cancelled.(live := cancelled.live[s.nextHandle := v], timeoutRef := Some(s.nextHandle), nextHandle := s.nextHandle + 1)
    case Clear =>
      CancelPending(s).(value := None)
    case Fire(h) =>
      if h !in s.live then s
      else
        var captured := s.live[h];
        s.(value := if s.value == Some(captured) then None else s.value, timeoutRef := None, live := s.live - {h})
  }

  function Run<T(==)>(s: State<T>, events: seq<Event<T>>): State<T> {
    if events == [] then s else Step(Run(s, events[..|events| - 1]), events[|events| - 1])
  }

  /** From the first render on, every reachable state is valid, so at most one timeout is ever pending. */
  lemma {:induction false} RunKeepsOnePending<T>(events: seq<Event<T>>)
    ensures Valid(Run(Initial(), events))
    ensures AtMostOnePending(Run(Initial(), events))
  {
    if events != [] {
      RunKeepsOnePending(events[..|events| - 1]);
    }
  }

  /** A value shown and left alone is cleared when its own timeout fires. */
  lemma ShownValueExpires<T>(s: State<T>, v: T)
    requires Valid(s)
    ensures var shown := Step(s, Show(v));
      Step(shown, Fire(s.nextHandle)).value.None?
  {
  }

  /** Showing again cancels the earlier timeout: it can no longer fire, so it cannot clear the newer value. */
  lemma ReshowCancelsEarlierTimeout<T>(s: State<T>, v: T, w: T)
    requires Valid(s)
    ensures var first := Step(s, Show(v));
      var second := Step(first, Show(w));
      s.nextHandle !in second.live && Step(second, Fire(s.nextHandle)) == second && second.value == Some(w)
  {
  }

  /** The hook instance. */
  class TransientHolder<T(==)> {
    var value: Option<T>
    var timeoutRef: Option<nat>
    var live: map<nat, T>
    var nextHandle: nat

    function Snapshot(): State<T>
      reads this
    {
      State(value, timeoutRef, live, nextHandle)
    }

    constructor ()
      ensures Snapshot() == Initial()
    {
      value := None;
      timeoutRef := None;
      live := map[];
      nextHandle := 1;
    }

    method ClearTimeoutIfNeeded()
      modifies this
      ensures Snapshot() == CancelPending(old(Snapshot()))
    {
      if timeoutRef.Some? {
        live := live - {timeoutRef.value};
        timeoutRef := None;
      }
    }

    /** `clear`, which the unmount cleanup also runs. */
    method Clear()
      modifies this
      ensures Snapshot() == Step(old(Snapshot()), Event.Clear)
    {
      ClearTimeoutIfNeeded();
      value := None;
    }

    /** `show`: set the value and replace any pending timeout with a fresh one, whose handle is returned. */
    method Show(nextValue: T) returns (handle: nat)
      modifies this
      ensures Snapshot() == Step(old(Snapshot()), Event.Show(nextValue))
      ensures handle == old(nextHandle)
    {
      value := Some(nextValue);
      ClearTimeoutIfNeeded();
      handle := nextHandle;
      nextHandle := nextHandle + 1;
      live := live[handle := nextValue];
      timeoutRef := Some(handle);
    }

    /** The browser runs the callback of timeout `handle`, if it is still scheduled. */
    method Fire(handle: nat)
      modifies this
      ensures Snapshot() == Step(old(Snapshot()), Event.Fire(handle))
    {
      if handle !in live {
        return;
      }
      var captured := live[handle];
      live := live - {handle};
      if value == Some(captured) {
        value := None;
      }
      timeoutRef := None;
    }
  }
}
