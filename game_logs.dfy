/**
 * `useGameLogs`: the loaded logs, newest file name first. The collation of `localeCompare` is the
 * parameter `rank`, a total order on strings given as a number per string; the sort is the stable
 * sort of `Array.prototype.sort` applied to a copy of the logs.
 */
module GameLogs {
  import opened Wrappers
  import opened Seqs
  import opened Sorting
  import opened TrackerTypes
  import TrackerApi

  /** The comparator `(left, right) => right.id.localeCompare(left.id)`, as "may come before". */
  function ByIdDesc(rank: string -> int): (GameLog, GameLog) -> bool {
    (left: GameLog, right: GameLog) => rank(left.id) >= rank(right.id)
  }

  lemma ByIdDescTotal(rank: string -> int)
    ensures TotalPreorder(ByIdDesc(rank))
  {
  }

  /** `sortLogsByIdDesc`: `[...logs].sort(...)`, a new sequence; the input is a value and stays as it was. */
  function SortLogsByIdDesc(logs: seq<GameLog>, rank: string -> int): (r: seq<GameLog>)
    ensures multiset(r) == multiset(logs)
  {
    Sort(logs, ByIdDesc(rank))
  }

  /** The result is the same logs, with ids in non-increasing collation order. */
  lemma SortedByIdDesc(logs: seq<GameLog>, rank: string -> int)
    ensures |SortLogsByIdDesc(logs, rank)| == |logs|
    ensures forall i, j | 0 <= i < j < |SortLogsByIdDesc(logs, rank)| ::
      rank(SortLogsByIdDesc(logs, rank)[i].id) >= rank(SortLogsByIdDesc(logs, rank)[j].id)
  {
    ByIdDescTotal(rank);
    SortSorted(logs, ByIdDesc(rank));
    assert |multiset(SortLogsByIdDesc(logs, rank))| == |multiset(logs)|;
  }

  /** Logs whose ids collate equally keep their loading order. */
  lemma TiesKeepOrder(logs: seq<GameLog>, rank: string -> int, key: int)
    ensures Filter(SortLogsByIdDesc(logs, rank), (log: GameLog) => rank(log.id) == key)
         == Filter(logs, (log: GameLog) => rank(log.id) == key)
  {
    ByIdDescTotal(rank);
    SortStable(logs, ByIdDesc(rank), (log: GameLog) => rank(log.id) == key);
  }

  /** `loadGameLogs`: the sorted result of `fetchGameLogs`. */
  function LoadGameLogs(entries: seq<(string, LogModule)>, roleIconUrl: string -> Option<string>, rank: string -> int)
    : (r: seq<GameLog>)
    ensures multiset(r) == multiset(TrackerApi.FetchGameLogs(entries, roleIconUrl))
  {
    SortLogsByIdDesc(TrackerApi.FetchGameLogs(entries, roleIconUrl), rank)
  }

  /** When the logs load, each entry's log is listed once; when one throws, the list is empty. */
  lemma LoadedLogsListed(entries: seq<(string, LogModule)>, roleIconUrl: string -> Option<string>, rank: string -> int)
    ensures (exists i | 0 <= i < |entries| :: !TrackerApi.Loadable(ResolveRawLog(entries[i].1))) ==>
      LoadGameLogs(entries, roleIconUrl, rank) == []
    ensures (forall i | 0 <= i < |entries| :: TrackerApi.Loadable(ResolveRawLog(entries[i].1))) ==>
      |LoadGameLogs(entries, roleIconUrl, rank)| == |entries| &&
      forall i | 0 <= i < |entries| ::
        TrackerApi.BuildGameLog(entries[i].0, entries[i].1, roleIconUrl).value in LoadGameLogs(entries, roleIconUrl, rank)
  {
    var fetched := TrackerApi.FetchGameLogs(entries, roleIconUrl);
    var loaded := LoadGameLogs(entries, roleIconUrl, rank);
    assert |multiset(loaded)| == |multiset(fetched)|;
    if forall i | 0 <= i < |entries| :: TrackerApi.Loadable(ResolveRawLog(entries[i].1)) {
      forall i | 0 <= i < |entries|
        ensures TrackerApi.BuildGameLog(entries[i].0, entries[i].1, roleIconUrl).value in loaded
      {
        assert fetched[i] in multiset(fetched);
      }
    } else {
      var i :| 0 <= i < |entries| && !TrackerApi.Loadable(ResolveRawLog(entries[i].1));
      TrackerApi.ErrorGivesNoLogs(entries, roleIconUrl, i);
    }
  }
}
