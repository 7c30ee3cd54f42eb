/** The leaderboard list: one row per saved score, ranked by position. */
module LeaderboardAdapter {
  import opened ScoreFormat
  import opened Victory

  /** The texts `bind` puts into one row (the date text is not modelled). */
  datatype RowLabels = RowLabels(rank: string, time: string, kills: string)

  /** "#" and the 1-based rank. */
  function RankLabel(position: nat): (s: string)
    ensures |s| >= 2 && s[0] == '#' && AllDigits(s[1..])
    ensures DecimalValue(s[1..]) == position + 1
  {
    NatToStringRoundTrip(position + 1);
    assert ("#" + NatToString(position + 1))[1..] == NatToString(position + 1);
    "#" + NatToString(position + 1)
  }

  /** The kill count followed by " kills". */
  function KillsLabel(kills: int): (s: string)
    ensures |s| >= 7 && s[|s| - 6..] == " kills" && s[..|s| - 6] == IntToString(kills)
    ensures ParseInt(s[..|s| - 6]) == kills
  {
    assert (IntToString(kills) + " kills")[..|IntToString(kills)|] == IntToString(kills);
    IntToString(kills) + " kills"
  }

  /** `LeaderboardViewHolder.bind`. */
  function Bind(score: Score, position: nat): (row: RowLabels)
    ensures row.rank == RankLabel(position) && DecimalValue(row.rank[1..]) == position + 1
    ensures row.time == TimeString(score.time)
    ensures row.kills == KillsLabel(score.kills) && ParseInt(row.kills[..|row.kills| - 6]) == score.kills
  {
    RowLabels(RankLabel(position), TimeString(score.time), KillsLabel(score.kills))
  }

  /** `getItemCount`: one row per score. */
  function ItemCount(scores: seq<Score>): (n: nat)
    ensures n == |scores|
  {
    |scores|
  }

  /** `onBindViewHolder`: the list only asks for positions it has. */
  function OnBindViewHolder(scores: seq<Score>, position: nat): (row: RowLabels)
    requires position < ItemCount(scores)
    ensures row == Bind(scores[position], position)
  {
    Bind(scores[position], position)
  }

  /** Different rows get different ranks, and the ranks run from #1 to #n. */
  lemma RanksAreDistinct(scores: seq<Score>, p: nat, q: nat)
    requires p < ItemCount(scores) && q < ItemCount(scores) && p != q
    ensures OnBindViewHolder(scores, p).rank != OnBindViewHolder(scores, q).rank
    ensures 1 <= DecimalValue(OnBindViewHolder(scores, p).rank[1..]) <= ItemCount(scores)
  {
  }
}
