/** The victory screen: it stores the finished run in the top-ten leaderboard and
    shows the run's time and kill count. */
module Victory {
  import opened Num
  import opened ScoreFormat

  /** One leaderboard entry: the run time in milliseconds, the kill count and the
      wall-clock time at which it was saved. */
  datatype Score = Score(time: int, kills: int, date: int)

  const MaxSavedScores: nat := 10

  predicate SortedByTime(s: seq<Score>)
  {
    forall i, j :: 0 <= i < j < |s| ==> s[i].time <= s[j].time
  }

  /** How many entries of `s` have a time of at most `t`. */
  function CountAtMost(s: seq<Score>, t: int): (n: nat)
    ensures n <= |s|
  {
    if |s| == 0 then 0 else CountAtMost(s[..|s| - 1], t) + (if s[|s| - 1].time <= t then 1 else 0)
  }

  /** Inserts `x` into a time-sorted list after every entry whose time is not larger,
      one step of a stable sort. */
  function InsertByTime(sorted: seq<Score>, x: Score): (r: seq<Score>)
    ensures |r| == |sorted| + 1
    decreases |sorted|
  {
    if |sorted| == 0 then [x]
    else
      var n := |sorted| - 1;
      if sorted[n].time <= x.time then sorted + [x]
      else InsertByTime(sorted[..n], x) + [sorted[n]]
  }

  /** Inserting adds exactly the one new entry. */
  lemma {:induction false} InsertPermutes(sorted: seq<Score>, x: Score)
    ensures multiset(InsertByTime(sorted, x)) == multiset(sorted) + multiset{x}
    decreases |sorted|
  {
    if |sorted| > 0 {
      var n := |sorted| - 1;
      assert sorted == sorted[..n] + [sorted[n]];
      if sorted[n].time > x.time {
        InsertPermutes(sorted[..n], x);
      }
    }
  }

  /** Kotlin's `sortBy { time }`, which is stable: an insertion sort. */
  function SortByTime(s: seq<Score>): (r: seq<Score>)
    ensures |r| == |s|
    ensures SortedByTime(r)
    decreases |s|
  {
    if |s| == 0 then []
    else
      InsertKeepsSorted(SortByTime(s[..|s| - 1]), s[|s| - 1]);
      InsertByTime(SortByTime(s[..|s| - 1]), s[|s| - 1])
  }

  /** Sorting only reorders. */
  lemma {:induction false} SortPermutes(s: seq<Score>)
    ensures multiset(SortByTime(s)) == multiset(s)
    decreases |s|
  {
    if |s| > 0 {
      var n := |s| - 1;
      assert s == s[..n] + [s[n]];
      SortPermutes(s[..n]);
      InsertPermutes(SortByTime(s[..n]), s[n]);
    }
  }

  /** The first `n` entries, or all of them when there are fewer (`take(n)`). */
  function Take(s: seq<Score>, n: nat): (r: seq<Score>)
    ensures |r| == IMin(|s|, n)
    ensures multiset(r) <= multiset(s)
    ensures forall i :: 0 <= i < |r| ==> r[i] == s[i]
  {
    if |s| <= n then s
    else
      assert s == s[..n] + s[n..];
      s[..n]
  }

  /** `VictoryActivity.saveScore`: the saved list plus the new run, sorted by time
      (fastest first) and cut to ten entries. */
  function SaveScore(scores: seq<Score>, gameTime: int, enemiesKilled: int, now: int): (top: seq<Score>)
    ensures |top| == IMin(|scores| + 1, MaxSavedScores)
    ensures SortedByTime(top)
    ensures multiset(top) <= multiset(scores) + multiset{Score(gameTime, enemiesKilled, now)}
  {
    SortPermutes(scores + [Score(gameTime, enemiesKilled, now)]);
    Take(SortByTime(scores + [Score(gameTime, enemiesKilled, now)]), MaxSavedScores)
  }

  /** In a sorted list the entries with time at most `t` form a prefix. */
  lemma {:induction false} SortedSplit(s: seq<Score>, t: int)
    requires SortedByTime(s)
    ensures forall i :: 0 <= i < CountAtMost(s, t) ==> s[i].time <= t
    ensures forall i :: CountAtMost(s, t) <= i < |s| ==> s[i].time > t
    decreases |s|
  {
    if |s| > 0 {
      var n := |s| - 1;
      if s[n].time <= t {
        AllAtMost(s, t);
      } else {
        SortedSplit(s[..n], t);
      }
    }
  }

  lemma {:induction false} AllAtMost(s: seq<Score>, t: int)
    requires forall i :: 0 <= i < |s| ==> s[i].time <= t
    ensures CountAtMost(s, t) == |s|
    decreases |s|
  {
    if |s| > 0 {
      AllAtMost(s[..|s| - 1], t);
    }
  }

  /** On a sorted list the insertion lands right after the entries whose time is not
      larger than the new one. */
  lemma {:induction false} InsertPosition(sorted: seq<Score>, x: Score)
    requires SortedByTime(sorted)
    ensures CountAtMost(sorted, x.time) <= |sorted|
    ensures var k := CountAtMost(sorted, x.time);
      InsertByTime(sorted, x) == sorted[..k] + [x] + sorted[k..]
    decreases |sorted|
  {
    if |sorted| > 0 {
      var n := |sorted| - 1;
      if sorted[n].time <= x.time {
        SortedSplit(sorted, x.time);
        AllAtMost(sorted, x.time);
      } else {
        InsertPosition(sorted[..n], x);
        var k := CountAtMost(sorted[..n], x.time);
        assert sorted[..n][..k] == sorted[..k];
        assert sorted[..n][k..] + [sorted[n]] == sorted[k..];
      }
    }
  }

  /** Inserting into a sorted list keeps it sorted. */
  lemma InsertKeepsSorted(sorted: seq<Score>, x: Score)
    requires SortedByTime(sorted)
    ensures SortedByTime(InsertByTime(sorted, x))
  {
    InsertPosition(sorted, x);
    SortedSplit(sorted, x.time);
    var k := CountAtMost(sorted, x.time);
    var r := InsertByTime(sorted, x);
    assert forall i :: 0 <= i < |r| ==> r[i] == (if i < k then sorted[i] else if i == k then x else sorted[i - 1]);
  }

  lemma {:induction false} InsertCount(sorted: seq<Score>, x: Score, t: int)
    ensures CountAtMost(InsertByTime(sorted, x), t) == CountAtMost(sorted, t) + (if x.time <= t then 1 else 0)
    decreases |sorted|
  {
    if |sorted| > 0 {
      var n := |sorted| - 1;
      if sorted[n].time <= x.time {
        assert (sorted + [x])[..|sorted|] == sorted;
      } else {
        InsertCount(sorted[..n], x, t);
        var r := InsertByTime(sorted[..n], x) + [sorted[n]];
        assert r[..|r| - 1] == InsertByTime(sorted[..n], x);
      }
    }
  }

  /** Sorting does not change how many entries beat a given time. */
  lemma {:induction false} SortKeepsCount(s: seq<Score>, t: int)
    ensures CountAtMost(SortByTime(s), t) == CountAtMost(s, t)
    decreases |s|
  {
    if |s| > 0 {
      SortKeepsCount(s[..|s| - 1], t);
      InsertCount(SortByTime(s[..|s| - 1]), s[|s| - 1], t);
    }
  }

  /** Sorting a list that is already sorted leaves it as it is. */
  lemma {:induction false} SortSortedIsIdentity(s: seq<Score>)
    requires SortedByTime(s)
    ensures SortByTime(s) == s
    decreases |s|
  {
    if |s| > 0 {
      var n := |s| - 1;
      assert SortedByTime(s[..n]);
      SortSortedIsIdentity(s[..n]);
      assert s[..n] + [s[n]] == s;
    }
  }

  /** Where the new run ends up: after the `k` earlier entries that are at least as
      fast. It is on the board exactly when `k` is below ten; otherwise the board is
      the old top ten. */
  lemma SaveScorePlacement(scores: seq<Score>, gameTime: int, enemiesKilled: int, now: int)
    ensures var x := Score(gameTime, enemiesKilled, now);
      var s := SortByTime(scores);
      var k := CountAtMost(scores, gameTime);
      var top := SaveScore(scores, gameTime, enemiesKilled, now);
      k <= |s|
      && SortByTime(scores + [x]) == s[..k] + [x] + s[k..]
      && (k < MaxSavedScores ==> top[..k] == s[..k] && top[k] == x)
      && (k >= MaxSavedScores ==> top == s[..MaxSavedScores])
  {
    var x := Score(gameTime, enemiesKilled, now);
    var s := SortByTime(scores);
    SortedInsertion(scores, x);
    TakeOfInsertion(s, CountAtMost(scores, gameTime), x);
  }

  lemma TakeOfInsertion(s: seq<Score>, k: nat, x: Score)
    requires k <= |s|
    ensures var top := Take(s[..k] + [x] + s[k..], MaxSavedScores);
      (k < MaxSavedScores ==> top[..k] == s[..k] && top[k] == x)
      && (k >= MaxSavedScores ==> top == s[..MaxSavedScores])
  {
    var all := s[..k] + [x] + s[k..];
    var top := Take(all, MaxSavedScores);
    if k < MaxSavedScores {
      assert all[k] == x;
      assert top[..k] == s[..k];
    } else {
      assert top == s[..MaxSavedScores];
    }
  }

  /** Sorting the board with the new run appended is one insertion into the sorted
      board, at the position counted on the unsorted one. */
  lemma SortedInsertion(scores: seq<Score>, x: Score)
    ensures var s := SortByTime(scores);
      var k := CountAtMost(scores, x.time);
      k <= |s| && SortByTime(scores + [x]) == s[..k] + [x] + s[k..]
  {
    var all := scores + [x];
    assert all[..|all| - 1] == scores;
    assert SortByTime(all) == InsertByTime(SortByTime(scores), x);
    SortKeepsCount(scores, x.time);
    InsertPosition(SortByTime(scores), x);
  }

  /** Saving into a board that is already sorted (as every saved board is) keeps the
      old entries in their order and slots the new run in after its equals. */
  lemma SaveIntoSortedBoard(scores: seq<Score>, gameTime: int, enemiesKilled: int, now: int)
    requires SortedByTime(scores)
    ensures var k := CountAtMost(scores, gameTime);
      k <= |scores|
      && SaveScore(scores, gameTime, enemiesKilled, now)
         == Take(scores[..k] + [Score(gameTime, enemiesKilled, now)] + scores[k..], MaxSavedScores)
  {
    SortSortedIsIdentity(scores);
    SaveScorePlacement(scores, gameTime, enemiesKilled, now);
  }

  /** An intent extra, which may be absent. */
  datatype Extra = Missing | Present(value: int)

  /** `getLongExtra(name, 0L)` and `getIntExtra(name, 0)`. */
  function ExtraOrZero(e: Extra): (v: int)
    ensures e.Present? ==> v == e.value
    ensures e.Missing? ==> v == 0
  {
    match e
    case Missing => 0
    case Present(v) => v
  }

  /** `setupUI`: the time label. */
  function TimeLabel(gameTime: int): string
  {
    "Time: " + TimeString(gameTime)
  }

  /** `setupUI`: the kill-count label. */
  function KillCountLabel(enemiesKilled: int): string
  {
    "Enemies Killed: " + IntToString(enemiesKilled)
  }

  /** What the screen ends up with: the new board and the two labels. */
  datatype VictoryScreen = VictoryScreen(board: seq<Score>, timeLabel: string, killsLabel: string)

  /** `onViewBindingCreated`: read the run from the intent, save it, show it. */
  function OnCreate(board: seq<Score>, gameTime: Extra, enemiesKilled: Extra, now: int): (v: VictoryScreen)
    ensures v.board == SaveScore(board, ExtraOrZero(gameTime), ExtraOrZero(enemiesKilled), now)
    ensures v.timeLabel == TimeLabel(ExtraOrZero(gameTime))
    ensures v.killsLabel == KillCountLabel(ExtraOrZero(enemiesKilled))
  {
    var t := ExtraOrZero(gameTime);
    var k := ExtraOrZero(enemiesKilled);
    VictoryScreen(SaveScore(board, t, k, now), TimeLabel(t), KillCountLabel(k))
  }

  /** The time label reads back as the run's minutes and seconds. */
  lemma TimeLabelReadsBack(gameTime: int)
    requires gameTime >= 0
    ensures |TimeLabel(gameTime)| >= 6 && TimeLabel(gameTime)[..6] == "Time: "
    ensures var s := TimeLabel(gameTime)[6..];
      |s| >= 5 && s[|s| - 3] == ':'
      && AllDigits(s[..|s| - 3]) && DecimalValue(s[..|s| - 3]) == Minutes(gameTime)
      && AllDigits(s[|s| - 2..]) && DecimalValue(s[|s| - 2..]) == Seconds(gameTime)
  {
    var l := TimeLabel(gameTime);
    assert l[6..] == TimeString(gameTime);
    TimeStringReadsBack(gameTime);
  }

  /** The kill-count label reads back as the kill count. */
  lemma KillCountLabelReadsBack(enemiesKilled: int)
    ensures var k := KillCountLabel(enemiesKilled);
      |k| >= 17 && k[..16] == "Enemies Killed: " && k[16..] == IntToString(enemiesKilled)
      && ParseInt(k[16..]) == enemiesKilled
  {
    var k := KillCountLabel(enemiesKilled);
    assert k[16..] == IntToString(enemiesKilled);
  }
}
