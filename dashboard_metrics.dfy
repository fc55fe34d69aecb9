/**
 * The tracker dashboard's figures: how many games each side won, the two-slice win-rate chart, and
 * the bar chart of the ten most recent games, oldest first, each labelled by its month and day.
 */
module DashboardMetrics {
  import opened TrackerTypes

  /** The number of logs won by `side`. */
  function Wins(logs: seq<GameLog>, side: Alignment): (n: nat)
    ensures n <= |logs|
  {
    if logs == [] then 0
    else Wins(logs[..|logs| - 1], side) + (if logs[|logs| - 1].winner == side then 1 else 0)
  }

  /** Every game is won by exactly one side. */
  lemma {:induction false} WinsAddUp(logs: seq<GameLog>)
    ensures Wins(logs, Good) + Wins(logs, Evil) == |logs|
  {
    if logs != [] {
      WinsAddUp(logs[..|logs| - 1]);
    }
  }

  /** No log is won by `side` exactly when its count is zero. */
  lemma {:induction false} NoWinsIffNone(logs: seq<GameLog>, side: Alignment)
    ensures Wins(logs, side) == 0 <==> forall i | 0 <= i < |logs| :: logs[i].winner != side
  {
    if logs != [] {
      var init := logs[..|logs| - 1];
      NoWinsIffNone(init, side);
      assert forall i | 0 <= i < |init| :: init[i] == logs[i];
    }
  }

  /** The `reduce` over the logs: a win for good counts for good, anything else for evil. */
  method CountWins(logs: seq<GameLog>) returns (good: nat, evil: nat)
    ensures good == Wins(logs, Good) && evil == Wins(logs, Evil)
  {
    good, evil := 0, 0;
    var i := 0;
    while i < |logs|
      invariant 0 <= i <= |logs|
      invariant good == Wins(logs[..i], Good) && evil == Wins(logs[..i], Evil)
    {
      assert logs[..i + 1][..i] == logs[..i];
      if logs[i].winner == Good {
        good := good + 1;
      } else {
        evil := evil + 1;
      }
      i := i + 1;
    }
    assert logs[..i] == logs;
  }

  /** `WinRateDataItem`. */
  datatype WinRateItem = WinRateItem(name: string, value: nat)

  /** `RecentGameWinnerData`. */
  datatype RecentGameWinner = RecentGameWinner(name: string, value: nat, winner: Alignment)

  /** What `useDashboardMetrics` returns. */
  datatype Metrics = Metrics(
    hasLogs: bool,
    totalGames: nat,
    goodWins: nat,
    evilWins: nat,
    winRateData: seq<WinRateItem>,
    recentGameWinners: seq<RecentGameWinner>)

  /** `date.slice(5)`: the date without its first five characters, `""` for a shorter one. */
  function DateLabel(date: string): (r: string)
    ensures |r| == if |date| <= 5 then 0 else |date| - 5
    ensures forall k | 0 <= k < |r| :: r[k] == date[k + 5]
  {
    if |date| <= 5 then "" else date[5..]
  }

  /** On a `YYYY-MM-DD` date the label is `MM-DD`. */
  lemma IsoDateLabel(date: string)
    requires |date| == 10 && date[4] == '-' && date[7] == '-'
    ensures DateLabel(date) == date[5..7] + "-" + date[8..]
  {
  }

  /** The bar of one game. */
  function RecentItem(log: GameLog): RecentGameWinner {
    RecentGameWinner(DateLabel(log.date), 1, log.winner)
  }

  /** `s.slice().reverse()`. */
  function Reverse<T>(s: seq<T>): (r: seq<T>)
    ensures |r| == |s|
    ensures forall k | 0 <= k < |s| :: r[k] == s[|s| - 1 - k]
  {
    if s == [] then [] else [s[|s| - 1]] + Reverse(s[..|s| - 1])
  }

  /** `logs.slice(0, 10).map(...).reverse()`. */
  function RecentGameWinners(logs: seq<GameLog>): seq<RecentGameWinner> {
    var recent := logs[..if |logs| < 10 then |logs| else 10];
    Reverse(seq(|recent|, k requires 0 <= k < |recent| => RecentItem(recent[k])))
  }

  /** There are ten bars, or fewer when there are fewer logs; they show the first ten logs from last to first. */
  lemma RecentShape(logs: seq<GameLog>)
    ensures |RecentGameWinners(logs)| == if |logs| < 10 then |logs| else 10
    ensures forall k | 0 <= k < |RecentGameWinners(logs)| ::
      RecentGameWinners(logs)[k] == RecentItem(logs[|RecentGameWinners(logs)| - 1 - k])
  {
  }

  /** `useDashboardMetrics`. */
  method UseDashboardMetrics(logs: seq<GameLog>) returns (m: Metrics)
    ensures m.hasLogs <==> |logs| > 0
    ensures m.totalGames == |logs|
    ensures m.goodWins == Wins(logs, Good) && m.evilWins == Wins(logs, Evil)
    ensures m.winRateData == [WinRateItem("Good", m.goodWins), WinRateItem("Evil", m.evilWins)]
    ensures m.recentGameWinners == RecentGameWinners(logs)
  {
    var good, evil := CountWins(logs);
    var winRateData := [WinRateItem("Good", good), WinRateItem("Evil", evil)];
    m := Metrics(|logs| > 0, |logs|, good, evil, winRateData, RecentGameWinners(logs));
  }
}
