/**
 * `useScriptActions`: the copy/download buttons of the script list. `copiedId` marks the script
 * whose JSON was just copied and is cleared by a 1000 ms timer; `downloadingId` marks the PDF
 * download in progress. Clipboard and download calls are given by whether they threw;
 * timers are explicit as in `TransientValue`. A PDF download is two events, its start and its
 * end, since others may happen while it is awaited.
 */
module ScriptActions {
  import opened Wrappers

  const CopiedLabelDurationMs: nat := 1000
  const CopyJsonFailureNotice: string := "JSON 복사 중 오류가 발생했습니다."
  const DownloadJsonFailureNotice: string := "JSON 다운로드 중 오류가 발생했습니다."
  const DownloadPdfFailureNotice: string := "PDF 다운로드 중 오류가 발생했습니다."

  /**
   * The hook's state, plus the live timers (handle to the script id its callback captured),
   * the next handle, the notices shown by `notify` and the context labels logged, in order.
   */
  datatype State = State(
    copiedId: Option<string>,
    downloadingId: Option<string>,
    timerRef: Option<nat>,
    live: map<nat, string>,
    nextHandle: nat,
    notices: seq<string>,
    logged: seq<string>)

  datatype Event =
    | CopyJson(scriptId: string, copied: bool)
    | DownloadJson(scriptId: string, downloaded: bool)
    | StartPdf(scriptId: string)
    | FinishPdf(scriptId: string, downloaded: bool)
    | FireCopiedTimer(handle: nat)
    | Unmount

  function Initial(): (s: State)
    ensures s.copiedId.None? && s.downloadingId.None? && s.timerRef.None? && s.live == map[] && s.notices == []
  {
    State(None, None, None, map[], 1, [], [])
  }

  /** The only live timer, if any, is the one `clearCopiedLabelTimeoutRef` holds. */
  predicate Valid(s: State) {
    forall h | h in s.live :: s.timerRef == Some(h) && h < s.nextHandle
  }

  /**
   * `runScriptAction` after the action: success exactly when it did not throw; a failure
   * logs the context label and shows the notice, once each.
   */
  function ActionOutcome(s: State, succeeded: bool, contextLabel: string, notice: string): (out: (bool, State))
    ensures out.0 == succeeded
    ensures succeeded ==> out.1 == s
    ensures !succeeded ==> out.1 == s.(notices := s.notices + [notice], logged := s.logged + [contextLabel])
  {
    if succeeded then (true, s)
    else (false, s.(notices := s.notices + [notice], logged := s.logged + [contextLabel]))
  }

  /** `setCopiedLabel`: mark the script and replace any pending clear timer by a fresh one. */
  function WithCopiedLabel(s: State, scriptId: string): (r: State)
    ensures r.copiedId == Some(scriptId) && r.timerRef == Some(s.nextHandle) && r.downloadingId == s.downloadingId
    ensures Valid(s) ==> r.live == map[s.nextHandle := scriptId] && Valid(r)
  {
    var cancelled := if s.timerRef.Some? then s.live - {s.timerRef.value} else s.live;
    s.(copiedId := Some(scriptId), live := cancelled[s.nextHandle := scriptId], timerRef := Some(s.nextHandle),
       nextHandle := s.nextHandle + 1)
  }

  function Step(s: State, ev: Event): (r: State)
    ensures Valid(s) ==> Valid(r)
    ensures ev.CopyJson? && ev.copied ==> r.copiedId == Some(ev.scriptId) && r.timerRef == Some(s.nextHandle)
    ensures ev.CopyJson? && ev.copied && Valid(s) ==> r.live == map[s.nextHandle := ev.scriptId]
    ensures ev.CopyJson? && !ev.copied ==>
      r.copiedId.None? && r.live == s.live && r.notices == s.notices + [CopyJsonFailureNotice]
    ensures ev.DownloadJson? ==> r.copiedId == s.copiedId && r.downloadingId == s.downloadingId
    ensures ev.StartPdf? ==> r.downloadingId == Some(ev.scriptId)
    ensures ev.FinishPdf? && s.downloadingId == Some(ev.scriptId) ==> r.downloadingId.None?
    ensures ev.FinishPdf? && s.downloadingId != Some(ev.scriptId) ==> r.downloadingId == s.downloadingId
    ensures ev.FinishPdf? ==> r.copiedId == s.copiedId
    ensures ev.FireCopiedTimer? && ev.handle !in s.live ==> r == s
    ensures ev.FireCopiedTimer? && ev.handle in s.live ==>
      r.live == s.live - {ev.handle} && r.timerRef == s.timerRef
      && (s.copiedId == Some(s.live[ev.handle]) ==> r.copiedId.None?)
      && (s.copiedId != Some(s.live[ev.handle]) ==> r.copiedId == s.copiedId)
    ensures ev.Unmount? && Valid(s) ==> r.live == map[]
  {
    match ev
    case CopyJson(scriptId, copied) =>
      var (success, after) := ActionOutcome(if copied then WithCopiedLabel(s, scriptId) else s, copied, "copying JSON", CopyJsonFailureNotice);
      if success then after else after.(copiedId := None)
    case DownloadJson(_, downloaded) =>
      ActionOutcome(s, downloaded, "downloading JSON", DownloadJsonFailureNotice).1
    case StartPdf(scriptId) =>
      s.(downloadingId := Some(scriptId))
    case FinishPdf(scriptId, downloaded) =>
      var after := ActionOutcome(s, downloaded, "downloading PDF", DownloadPdfFailureNotice).1;
      after.(downloadingId := if after.downloadingId == Some(scriptId) then None else after.downloadingId)
    case FireCopiedTimer(h) =>
      if h !in s.live then s
      else
        var captured := s.live[h];
        s.(copiedId := if s.copiedId == Some(captured) then None else s.copiedId, live := s.live - {h})
    case Unmount =>
      if s.timerRef.Some? then s.(live := s.live - {s.timerRef.value}) else s
  }

  function Run(s: State, events: seq<Event>): State {
    if events == [] then s else Step(Run(s, events[..|events| - 1]), events[|events| - 1])
  }

  /** From the first render on, at most one clear timer is ever live. */
  lemma {:induction false} RunKeepsOneTimer(events: seq<Event>)
    ensures Valid(Run(Initial(), events))
    ensures forall h1, h2 | h1 in Run(Initial(), events).live && h2 in Run(Initial(), events).live :: h1 == h2
  {
    if events != [] {
      RunKeepsOneTimer(events[..|events| - 1]);
    }
  }

  /** The timer of a copy clears the label when nothing was copied since. */
  lemma CopiedLabelExpires(s: State, scriptId: string)
    requires Valid(s)
    ensures var copied := Step(s, CopyJson(scriptId, true));
      Step(copied, FireCopiedTimer(s.nextHandle)).copiedId.None?
  {
  }

  /** A second copy cancels the first copy's timer, so the second label stays until its own timer fires. */
  lemma RecopyKeepsNewLabel(s: State, first: string, second: string)
    requires Valid(s)
    ensures var a := Step(s, CopyJson(first, true));
      var b := Step(a, CopyJson(second, true));
      Step(b, FireCopiedTimer(s.nextHandle)) == b && b.copiedId == Some(second)
  {
  }

  /** Overlapping PDF downloads: the earlier one finishing does not clear the later one's marker. */
  lemma OverlappingPdfDownloads(s: State, first: string, second: string, downloaded: bool)
    requires first != second
    ensures var started := Step(Step(s, StartPdf(first)), StartPdf(second));
      Step(started, FinishPdf(first, downloaded)).downloadingId == Some(second)
  {
  }

  /** Every failed action shows exactly one notice; successful ones show none. */
  lemma {:induction false} NoticesCountFailures(s: State, events: seq<Event>)
    ensures |Run(s, events).notices| == |s.notices| + FailureCount(events)
  {
    if events != [] {
      NoticesCountFailures(s, events[..|events| - 1]);
    }
  }

  /** The failed actions among `events`. */
  function FailureCount(events: seq<Event>): nat {
    if events == [] then 0
    else
      var last := events[|events| - 1];
      FailureCount(events[..|events| - 1])
        + (if (last.CopyJson? && !last.copied) || (last.DownloadJson? && !last.downloaded) || (last.FinishPdf? && !last.downloaded) then 1 else 0)
  }

  /** The hook instance. */
  class ScriptActionsHook {
    var copiedId: Option<string>
    var downloadingId: Option<string>
    var timerRef: Option<nat>
    var live: map<nat, string>
    var nextHandle: nat
    var notices: seq<string>
    var logged: seq<string>

    function Snapshot(): State
      reads this
    {
      State(copiedId, downloadingId, timerRef, live, nextHandle, notices, logged)
    }

    constructor ()
      ensures Snapshot() == Initial()
    {
      copiedId := None;
      downloadingId := None;
      timerRef := None;
      live := map[];
      nextHandle := 1;
      notices := [];
      logged := [];
    }

    /** `runScriptAction`, once the action has settled. */
    method RunScriptAction(succeeded: bool, contextLabel: string, notice: string) returns (success: bool)
      modifies this
      ensures (success, Snapshot()) == ActionOutcome(old(Snapshot()), succeeded, contextLabel, notice)
    {
      if succeeded {
        return true;
      }
      logged := logged + [contextLabel];
      notices := notices + [notice];
      return false;
    }

    method SetCopiedLabel(scriptId: string)
      modifies this
      ensures Snapshot() == WithCopiedLabel(old(Snapshot()), scriptId)
    {
      copiedId := Some(scriptId);
      if timerRef.Some? {
        live := live - {timerRef.value};
      }
      timerRef := Some(nextHandle);
      live := live[nextHandle := scriptId];
      nextHandle := nextHandle + 1;
    }

    /** `onCopyJson`; `copied` says whether writing to the clipboard succeeded. */
    method OnCopyJson(scriptId: string, copied: bool)
      modifies this
      ensures Snapshot() == Step(old(Snapshot()), CopyJson(scriptId, copied))
    {
      if copied {
        SetCopiedLabel(scriptId);
      }
      var success := RunScriptAction(copied, "copying JSON", CopyJsonFailureNotice);
      if !success {
        copiedId := None;
      }
    }

    /** `onDownloadJson`. */
    method OnDownloadJson(scriptId: string, downloaded: bool)
      modifies this
      ensures Snapshot() == Step(old(Snapshot()), DownloadJson(scriptId, downloaded))
    {
      var _ := RunScriptAction(downloaded, "downloading JSON", DownloadJsonFailureNotice);
    }

    /** `onDownloadPdf` up to its `await`. */
    method StartPdfDownload(scriptId: string)
      modifies this
      ensures Snapshot() == Step(old(Snapshot()), StartPdf(scriptId))
    {
      downloadingId := Some(scriptId);
    }

    /** The rest of `onDownloadPdf`, with its `finally`. */
    method FinishPdfDownload(scriptId: string, downloaded: bool)
      modifies this
      ensures Snapshot() == Step(old(Snapshot()), FinishPdf(scriptId, downloaded))
    {
      var _ := RunScriptAction(downloaded, "downloading PDF", DownloadPdfFailureNotice);
      if downloadingId == Some(scriptId) {
        downloadingId := None;
      }
    }

    /** The browser runs the clear-label callback of timer `handle`, if it is still scheduled. */
    method FireCopiedTimer(handle: nat)
      modifies this
      ensures Snapshot() == Step(old(Snapshot()), Event.FireCopiedTimer(handle))
    {
      if handle !in live {
        return;
      }
      var captured := live[handle];
      live := live - {handle};
      if copiedId == Some(captured) {
        copiedId := None;
      }
    }

    /** The unmount cleanup: cancel the pending clear timer. */
    method Unmount()
      modifies this
      ensures Snapshot() == Step(old(Snapshot()), Event.Unmount)
    {
      if timerRef.Some? {
        live := live - {timerRef.value};
      }
    }
  }
}
