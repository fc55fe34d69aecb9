/**
 * `useAsyncData`: a loader whose requests are numbered by a version counter; only the request
 * whose number is still current may commit its data or error or clear `isLoading`.
 * The asynchronous `reload` is split into its two halves: `Reload` (up to the `await`) and
 * `Settle` (what runs once `loadData()` has settled). The effect's cleanup is `Cleanup`.
 */
module AsyncData {
  import opened Wrappers
  import FetchRetry

  type Thrown = FetchRetry.Thrown

  const DefaultErrorMessage: string := "데이터를 불러오는데 실패했습니다"

  /** How `loadData()` settled. */
  datatype Settled<T> = Loaded(value: T) | Threw(error: Thrown)

  /** The hook's state; `reported` lists the values passed to `onError`, in order. */
  datatype State<T> = State(data: T, isLoading: bool, error: Option<string>, version: nat, reported: seq<Thrown>)

  datatype Event<T> = Reload | Settle(requestVersion: nat, outcome: Settled<T>) | Cleanup

  /** The first render. */
  function Initial<T>(initialData: T): (s: State<T>)
    ensures s.data == initialData && s.isLoading && s.error.None? && s.version == 0 && s.reported == []
  {
    State(initialData, true, None, 0, [])
  }

  /** The message stored for a failure: `getErrorMessage(e)`, else the `Error`'s message, else the default text. */
  function ErrorMessage(getErrorMessage: Option<Thrown -> string>, e: Thrown): (m: string)
    ensures getErrorMessage.Some? ==> m == getErrorMessage.value(e)
    ensures getErrorMessage.None? && e.ErrorInstance? ==> m == e.message
    ensures getErrorMessage.None? && e.NonErrorValue? ==> m == DefaultErrorMessage
  {
    match getErrorMessage
    case Some(f) => f(e)
    case None => if e.ErrorInstance? then e.message else DefaultErrorMessage
  }

  /** One event. */
  function Step<T>(s: State<T>, ev: Event<T>, getErrorMessage: Option<Thrown -> string>): (r: State<T>)
    ensures r.version >= s.version
    ensures ev.Reload? ==> r.version == s.version + 1 && r.isLoading && r.error.None? && r.data == s.data && r.reported == s.reported
    ensures ev.Cleanup? ==> r == s.(version := s.version + 1)
    ensures ev.Settle? && ev.requestVersion != s.version ==> r == s
    ensures ev.Settle? && ev.requestVersion == s.version ==> r.version == s.version && !r.isLoading
    ensures ev.Settle? && ev.requestVersion == s.version && ev.outcome.Loaded? ==>
      r.data == ev.outcome.value && r.error == s.error && r.reported == s.reported
    ensures ev.Settle? && ev.requestVersion == s.version && ev.outcome.Threw? ==>
      r.data == s.data && r.error == Some(ErrorMessage(getErrorMessage, ev.outcome.error))
      && r.reported == s.reported + [ev.outcome.error]
  {
    match ev
    case Reload => s.(version := s.version + 1, isLoading := true, error := None)
    case Cleanup => s.(version := s.version + 1)
    case Settle(requestVersion, outcome) =>
      if requestVersion != s.version then s
      else match outcome
        case Loaded(value) => s.(data := value, isLoading := false)
        case Threw(e) => s.(error := Some(ErrorMessage(getErrorMessage, e)), reported := s.reported + [e], isLoading := false)
  }

  /** A sequence of events, in order. */
  function Run<T>(s: State<T>, events: seq<Event<T>>, getErrorMessage: Option<Thrown -> string>): State<T> {
    if events == [] then s
    else Step(Run(s, events[..|events| - 1], getErrorMessage), events[|events| - 1], getErrorMessage)
  }

  /** The events that move the version on: a new request, or the effect's cleanup. */
  predicate Bumps<T>(ev: Event<T>) {
    ev.Reload? || ev.Cleanup?
  }

  /** The version never goes back, and goes forward past every `Reload` or `Cleanup`. */
  lemma {:induction false} RunVersion<T>(s: State<T>, events: seq<Event<T>>, getErrorMessage: Option<Thrown -> string>, i: nat)
    requires i <= |events|
    ensures Run(s, events, getErrorMessage).version >= s.version
    ensures i < |events| && Bumps(events[i]) ==> Run(s, events, getErrorMessage).version > s.version
  {
    if events != [] {
      var init := events[..|events| - 1];
      if i < |init| {
        assert init[i] == events[i];
        RunVersion(s, init, getErrorMessage, i);
      } else {
        RunVersion(s, init, getErrorMessage, 0);
      }
    }
  }

  /** `isLoading` is cleared only by the settling of the current request. */
  lemma LoadingClearedOnlyByCurrent<T>(s: State<T>, ev: Event<T>, getErrorMessage: Option<Thrown -> string>)
    requires s.isLoading && !Step(s, ev, getErrorMessage).isLoading
    ensures ev.Settle? && ev.requestVersion == s.version
  {
  }

  /**
   * Last issued wins: once request A (issued by the `Reload` that leads to `issued`) has been
   * followed by another `Reload` or by a cleanup, A's settling changes nothing, whatever else happened.
   */
  lemma {:induction false} SupersededNeverCommits<T>(
    issued: State<T>, later: seq<Event<T>>, i: nat, outcome: Settled<T>, getErrorMessage: Option<Thrown -> string>)
    requires 0 <= i < |later| && Bumps(later[i])
    ensures var s := Run(issued, later, getErrorMessage);
      Step(s, Settle(issued.version, outcome), getErrorMessage) == s
  {
    RunVersion(issued, later, getErrorMessage, i);
  }

  /**
   * The same for a whole session: of two requests A and B issued in that order, whatever happens
   * after B's `Reload`, A's settling leaves the state as the other events made it.
   */
  lemma LastIssuedWins<T>(s: State<T>, between: seq<Event<T>>, after: seq<Event<T>>, outcome: Settled<T>,
                          getErrorMessage: Option<Thrown -> string>)
    ensures var a := Step(s, Reload, getErrorMessage);
      var b := Run(a, between + [Reload] + after, getErrorMessage);
      Step(b, Settle(a.version, outcome), getErrorMessage) == b
  {
    var a := Step(s, Reload, getErrorMessage);
    SupersededNeverCommits(a, between + [Reload] + after, |between|, outcome, getErrorMessage);
  }

  /** The hook instance. */
  class AsyncLoader<T> {
    const getErrorMessage: Option<Thrown -> string>
    var data: T
    var isLoading: bool
    var error: Option<string>
    var requestVersion: nat
    var reported: seq<Thrown>

    function Snapshot(): State<T>
      reads this
    {
      State(data, isLoading, error, requestVersion, reported)
    }

    constructor (initialData: T, getErrorMessage: Option<Thrown -> string>)
      ensures Snapshot() == Initial(initialData) && this.getErrorMessage == getErrorMessage
    {
      this.getErrorMessage := getErrorMessage;
      data := initialData;
      isLoading := true;
      error := None;
      requestVersion := 0;
      reported := [];
    }

    /** `reload` up to its `await`: take the next version and show the loading state. */
    method Reload() returns (version: nat)
      modifies this
      ensures Snapshot() == Step(old(Snapshot()), Event.Reload, getErrorMessage)
      ensures version == requestVersion
    {
      version := requestVersion + 1;
      requestVersion := version;
      isLoading := true;
      error := None;
    }

    /** The rest of `reload` for the request numbered `version`, once `loadData()` has settled. */
    method Settle(version: nat, outcome: Settled<T>)
      modifies this
      ensures Snapshot() == Step(old(Snapshot()), Event.Settle(version, outcome), getErrorMessage)
    {
      match outcome {
        case Loaded(nextData) =>
          if version != requestVersion {
            return;
          }
          data := nextData;
        case Threw(e) =>
          if version != requestVersion {
            return;
          }
          reported := reported + [e];
          error := Some(ErrorMessage(getErrorMessage, e));
      }
      if version == requestVersion {
        isLoading := false;
      }
    }

    /** The effect's cleanup, on unmount or before the effect runs again. */
    method Cleanup()
      modifies this
      ensures Snapshot() == Step(old(Snapshot()), Event.Cleanup, getErrorMessage)
    {
      requestVersion := requestVersion + 1;
    }
  }
}
