/** The insights page: the 30-day aggregation of mood logs and productivity
    sessions in `loadInsights`, the mood-trend label of `getMoodTrend`, and
    the focus-hours figure. Averages are exact rationals here; the page
    shows them through `toFixed(1)`. */
module Insights {
  import opened Common
  import Dashboard

  /** A row of `mood_logs`; the two levels are nullable columns. */
  datatype MoodLog = MoodLog(moodScore: int, stressLevel: Option<int>, energyLevel: Option<int>, createdAt: string)

  /** A point of the mood history: the localised date and the score. */
  datatype TrendPoint = TrendPoint(date: string, mood: int)

  datatype InsightsState = InsightsState(
    moodTrend: seq<TrendPoint>,
    avgStress: real,
    avgEnergy: real,
    totalSessions: nat)

  /** The state before any data has arrived. */
  const InitialState := InsightsState([], 0.0, 0.0, 0)

  /** `x || 0` for a nullable integer column. */
  function OrZero(x: Option<int>): int
  {
    if x.Some? then x.value else 0
  }

  /** `sum / (length || 1)`: the mean of the values, and 0 for none. */
  function Average(xs: seq<int>): (avg: real)
    ensures |xs| == 0 ==> avg == 0.0
  {
    (Sum(xs) as real) / ((if |xs| == 0 then 1 else |xs|) as real)
  }

  function StressValues(logs: seq<MoodLog>): (r: seq<int>)
    ensures |r| == |logs| && forall i :: 0 <= i < |logs| ==> r[i] == OrZero(logs[i].stressLevel)
  {
    seq(|logs|, i requires 0 <= i < |logs| => OrZero(logs[i].stressLevel))
  }

  function EnergyValues(logs: seq<MoodLog>): (r: seq<int>)
    ensures |r| == |logs| && forall i :: 0 <= i < |logs| ==> r[i] == OrZero(logs[i].energyLevel)
  {
    seq(|logs|, i requires 0 <= i < |logs| => OrZero(logs[i].energyLevel))
  }

  /** `moodData.data.map(m => ({ date, mood: m.mood_score }))`, with the
      locale date rendering given as a parameter. */
  function TrendPoints(dateLabel: string -> string, logs: seq<MoodLog>): (r: seq<TrendPoint>)
    ensures |r| == |logs|
    ensures forall i :: 0 <= i < |logs| ==> r[i] == TrendPoint(dateLabel(logs[i].createdAt), logs[i].moodScore)
  {
    seq(|logs|, i requires 0 <= i < |logs| => TrendPoint(dateLabel(logs[i].createdAt), logs[i].moodScore))
  }

  /** `loadInsights` once both queries have answered: without mood data the
      state is kept; otherwise the history mirrors the logs in order, the
      levels are averaged with a missing level counted as 0, and the
      session count is the number of rows, 0 when that query has no data. */
  function LoadInsights<S>(dateLabel: string -> string, state: InsightsState,
                           moodData: Option<seq<MoodLog>>, sessionsData: Option<seq<S>>): (r: InsightsState)
    ensures moodData.None? ==> r == state
    ensures moodData.Some? ==>
      && |r.moodTrend| == |moodData.value|
      && (forall i :: 0 <= i < |moodData.value| ==> r.moodTrend[i].mood == moodData.value[i].moodScore)
      && r.avgStress == Average(StressValues(moodData.value))
      && r.avgEnergy == Average(EnergyValues(moodData.value))
      && r.totalSessions == (if sessionsData.Some? then |sessionsData.value| else 0)
  {
    match moodData
    case None => state
    case Some(logs) =>
      InsightsState(
        TrendPoints(dateLabel, logs),
        Average(StressValues(logs)),
        Average(EnergyValues(logs)),
        if sessionsData.Some? then |sessionsData.value| else 0)
  }

  /** A mean of values within [lo, hi] lies within [lo, hi]. */
  lemma AverageBetween(xs: seq<int>, lo: int, hi: int)
    requires |xs| > 0
    requires forall i :: 0 <= i < |xs| ==> lo <= xs[i] <= hi
    ensures lo as real <= Average(xs) <= hi as real
  {
    var n := |xs|;
    SumBounds(xs, lo, hi);
    IntProductAsReal(n, lo);
    IntProductAsReal(n, hi);
    QuotientBetween(Sum(xs) as real, n as real, lo as real, hi as real);
  }

  /** Logs written by the dashboard's mood logger for moods on the 1..10
      scale average to stress and energy figures on the 1..5 scale. */
  lemma LoggedLevelsInRange<S>(dateLabel: string -> string, state: InsightsState,
                               entries: seq<Dashboard.MoodEntry>, dates: seq<string>, sessionsData: Option<seq<S>>)
    requires |entries| == |dates| > 0
    requires forall i :: 0 <= i < |entries| ==> 1 <= entries[i].moodScore <= 10
    requires forall i :: 0 <= i < |entries| ==>
      Dashboard.LogMood(Some(entries[i].userId), entries[i].moodScore) == Some(entries[i])
    ensures var logs := seq(|entries|, i requires 0 <= i < |entries| =>
                              MoodLog(entries[i].moodScore, Some(entries[i].stressLevel), Some(entries[i].energyLevel), dates[i]));
            var r := LoadInsights(dateLabel, state, Some(logs), sessionsData);
            1.0 <= r.avgStress <= 5.0 && 1.0 <= r.avgEnergy <= 5.0
  {
    var logs := seq(|entries|, i requires 0 <= i < |entries| =>
                      MoodLog(entries[i].moodScore, Some(entries[i].stressLevel), Some(entries[i].energyLevel), dates[i]));
    forall i | 0 <= i < |logs|
      ensures 1 <= StressValues(logs)[i] <= 5 && 1 <= EnergyValues(logs)[i] <= 5
    {
      assert Dashboard.LogMood(Some(entries[i].userId), entries[i].moodScore) == Some(entries[i]);
    }
    AverageBetween(StressValues(logs), 1, 5);
    AverageBetween(EnergyValues(logs), 1, 5);
  }

  // ---------------------------------------------------------------------
  // getMoodTrend

  datatype Trend = Improving | Declining | Stable

  function Moods(points: seq<TrendPoint>): (r: seq<int>)
    ensures |r| == |points| && forall i :: 0 <= i < |points| ==> r[i] == points[i].mood
  {
    seq(|points|, i requires 0 <= i < |points| => points[i].mood)
  }

  /** `slice(-7)`: the last seven scores, or all of them when there are fewer. */
  function Recent(xs: seq<int>): (r: seq<int>)
    ensures |r| == if |xs| < 7 then |xs| else 7
    ensures r == xs[|xs| - |r|..]
  {
    if |xs| <= 7 then xs else xs[|xs| - 7..]
  }

  /** `slice(0, Math.ceil(length / 2))`. */
  function FirstHalf(xs: seq<int>): seq<int>
  {
    xs[..CeilDiv(|xs|, 2)]
  }

  /** `slice(Math.ceil(length / 2))`. */
  function SecondHalf(xs: seq<int>): seq<int>
  {
    xs[CeilDiv(|xs|, 2)..]
  }

  /** The exact mean of a non-empty list. */
  function Mean(xs: seq<int>): real
    requires |xs| > 0
  {
    (Sum(xs) as real) / (|xs| as real)
  }

  /** Both halves are non-empty once there are two scores, the first taking
      the middle score of an odd count, and together they are the list. */
  lemma HalvesNonEmpty(xs: seq<int>)
    requires |xs| >= 2
    ensures |FirstHalf(xs)| >= 1 && |SecondHalf(xs)| >= 1
    ensures |FirstHalf(xs)| - |SecondHalf(xs)| == |xs| % 2
    ensures FirstHalf(xs) + SecondHalf(xs) == xs
  {
  }

  /** The comparison of `getMoodTrend` on the recent scores: the mean of
      the second half against that of the first half, with a margin of half
      a point either way. */
  function Classify(recent: seq<int>): Trend
    requires |recent| >= 2
  {
    var first, second := FirstHalf(recent), SecondHalf(recent);
    var avgFirst, avgSecond := Mean(first), Mean(second);
    if avgSecond > avgFirst + 0.5 then Improving
    else if avgSecond < avgFirst - 0.5 then Declining
    else Stable
  }

  /** `getMoodTrend`: stable below two points, otherwise the classification
      of the last seven scores. */
  function MoodTrend(points: seq<TrendPoint>): Trend
  {
    if |points| < 2 then Stable else Classify(Recent(Moods(points)))
  }

  /** With fewer than two points the trend is stable. */
  lemma FewPointsStable(points: seq<TrendPoint>)
    requires |points| < 2
    ensures MoodTrend(points) == Stable
  {
  }

  /** Before any data arrives, and after a load that brings no mood data,
      the page shows an empty history labelled stable and zero figures. */
  lemma InitialStateStable<S>(dateLabel: string -> string, sessionsData: Option<seq<S>>)
    ensures var r := LoadInsights(dateLabel, InitialState, None, sessionsData);
            && r == InitialState && MoodTrend(r.moodTrend) == Stable
            && r.avgStress == 0.0 && r.avgEnergy == 0.0 && r.totalSessions == 0
  {
    FewPointsStable(InitialState.moodTrend);
  }

  /** `improving` exactly when the second half's mean exceeds the first's
      by more than half a point, stated on integer sums: with sums s1, s2 of
      n1, n2 scores, 2 * s2 * n1 > 2 * s1 * n2 + n1 * n2. */
  predicate ImprovingBy(first: seq<int>, second: seq<int>)
  {
    2 * Sum(second) * |first| > 2 * Sum(first) * |second| + |first| * |second|
  }

  /** `declining`: the second half's mean is below the first's by more than
      half a point. */
  predicate DecliningBy(first: seq<int>, second: seq<int>)
  {
    2 * Sum(second) * |first| < 2 * Sum(first) * |second| - |first| * |second|
  }

  /** The real-valued thresholds agree with the integer cross-multiplied
      ones, in both directions, and exactly one label applies. */
  lemma ClassifyCrossMultiplied(recent: seq<int>)
    requires |recent| >= 2
    ensures var first, second := FirstHalf(recent), SecondHalf(recent);
            && (Classify(recent) == Improving <==> ImprovingBy(first, second))
            && (Classify(recent) == Declining <==> DecliningBy(first, second))
            && (Classify(recent) == Stable <==> !ImprovingBy(first, second) && !DecliningBy(first, second))
  {
    var first, second := FirstHalf(recent), SecondHalf(recent);
    HalvesNonEmpty(recent);
    CompareMeans(Sum(first), |first|, Sum(second), |second|);
  }

  /** The same on whole histories: the label of the last seven scores, by
      cross-multiplication. */
  lemma TrendCrossMultiplied(points: seq<TrendPoint>)
    requires |points| >= 2
    ensures var recent := Recent(Moods(points));
            var first, second := FirstHalf(recent), SecondHalf(recent);
            && (MoodTrend(points) == Improving <==> ImprovingBy(first, second))
            && (MoodTrend(points) == Declining <==> DecliningBy(first, second))
            && (MoodTrend(points) == Stable <==> !ImprovingBy(first, second) && !DecliningBy(first, second))
  {
    ClassifyCrossMultiplied(Recent(Moods(points)));
  }

  /** Cross-multiplying the comparison of two means with a margin of one half. */
  lemma CompareMeans(s1: int, n1: int, s2: int, n2: int)
    requires n1 > 0 && n2 > 0
    ensures (s2 as real) / (n2 as real) > (s1 as real) / (n1 as real) + 0.5 <==> 2 * s2 * n1 > 2 * s1 * n2 + n1 * n2
    ensures (s2 as real) / (n2 as real) < (s1 as real) / (n1 as real) - 0.5 <==> 2 * s2 * n1 < 2 * s1 * n2 - n1 * n2
  {
    var S1, N1, S2, N2 := s1 as real, n1 as real, s2 as real, n2 as real;
    var q1, q2 := S1 / N1, S2 / N2;
    QuotientTimes(S1, N1);
    QuotientTimes(S2, N2);
    var p := 2.0 * N1 * N2;
    PositiveProduct(N1, N2);
    var up := 2 * s2 * n1 - 2 * s1 * n2 - n1 * n2;
    var down := 2 * s2 * n1 - 2 * s1 * n2 + n1 * n2;
    ScaledDifference(q1, q2, N1, N2, S1, S2);
    IntExpressionAsReal(s1, n1, s2, n2);
    SameSign(q2 - q1 - 0.5, p, up);
    SameSign(q2 - q1 + 0.5, p, down);
  }

  lemma PositiveProduct(x: real, y: real)
    requires x > 0.0 && y > 0.0
    ensures 2.0 * x * y > 0.0
  {
  }

  /** A real scaled by a positive factor to an integer has that integer's sign. */
  lemma SameSign(x: real, p: real, u: int)
    requires p > 0.0 && x * p == u as real
    ensures x > 0.0 <==> u > 0
    ensures x < 0.0 <==> u < 0
  {
    SignOfScaled(x, p);
  }

  lemma ScaledDifference(q1: real, q2: real, n1: real, n2: real, s1: real, s2: real)
    requires q1 * n1 == s1 && q2 * n2 == s2
    ensures (q2 - q1 - 0.5) * (2.0 * n1 * n2) == 2.0 * s2 * n1 - 2.0 * s1 * n2 - n1 * n2
    ensures (q2 - q1 + 0.5) * (2.0 * n1 * n2) == 2.0 * s2 * n1 - 2.0 * s1 * n2 + n1 * n2
  {
    assert q2 * (2.0 * n1 * n2) == 2.0 * (q2 * n2) * n1;
    assert q1 * (2.0 * n1 * n2) == 2.0 * (q1 * n1) * n2;
  }

  lemma IntExpressionAsReal(s1: int, n1: int, s2: int, n2: int)
    ensures (2 * s2 * n1 - 2 * s1 * n2 - n1 * n2) as real
         == 2.0 * (s2 as real) * (n1 as real) - 2.0 * (s1 as real) * (n2 as real) - (n1 as real) * (n2 as real)
    ensures (2 * s2 * n1 - 2 * s1 * n2 + n1 * n2) as real
         == 2.0 * (s2 as real) * (n1 as real) - 2.0 * (s1 as real) * (n2 as real) + (n1 as real) * (n2 as real)
  {
    IntProductAsReal(2 * s2, n1);
    IntProductAsReal(2 * s1, n2);
    IntProductAsReal(n1, n2);
  }

  lemma SignOfScaled(x: real, p: real)
    requires p > 0.0
    ensures x > 0.0 <==> x * p > 0.0
    ensures x < 0.0 <==> x * p < 0.0
  {
    if x > 0.0 {
      CancelPositiveStrict(0.0, x, p);
    }
  }

  /** Scores that are all equal give a stable trend. */
  lemma ConstantScoresStable(points: seq<TrendPoint>, v: int)
    requires forall i :: 0 <= i < |points| ==> points[i].mood == v
    ensures MoodTrend(points) == Stable
  {
    if |points| >= 2 {
      var recent := Recent(Moods(points));
      assert forall i :: 0 <= i < |recent| ==> recent[i] == points[|points| - |recent| + i].mood;
      ConstantHalvesBalanced(recent, v);
      ClassifyCrossMultiplied(recent);
    }
  }

  lemma ConstantHalvesBalanced(xs: seq<int>, v: int)
    requires |xs| >= 2
    requires forall i :: 0 <= i < |xs| ==> xs[i] == v
    ensures !ImprovingBy(FirstHalf(xs), SecondHalf(xs)) && !DecliningBy(FirstHalf(xs), SecondHalf(xs))
  {
    var first, second := FirstHalf(xs), SecondHalf(xs);
    HalvesNonEmpty(xs);
    assert forall i :: 0 <= i < |second| ==> second[i] == xs[|first| + i];
    SumConstant(first, v);
    SumConstant(second, v);
    BalancedSums(|first|, |second|, v);
  }

  lemma BalancedSums(a: int, b: int, v: int)
    requires a >= 1 && b >= 1
    ensures !(2 * (b * v) * a > 2 * (a * v) * b + a * b)
    ensures !(2 * (b * v) * a < 2 * (a * v) * b - a * b)
  {
    MulAtLeast(a, b);
    assert (b * v) * a == (a * v) * b;
  }

  /** Only the last seven points matter: anything logged before them does
      not change the trend. */
  lemma OnlyLastSevenMatter(earlier: seq<TrendPoint>, points: seq<TrendPoint>)
    requires |points| >= 7
    ensures MoodTrend(earlier + points) == MoodTrend(points)
  {
    var all := earlier + points;
    assert Moods(all)[|earlier|..] == Moods(points);
    RecentOfSuffix(Moods(all), Moods(points));
  }

  lemma RecentOfSuffix(a: seq<int>, b: seq<int>)
    requires 7 <= |b| <= |a| && a[|a| - |b|..] == b
    ensures Recent(a) == Recent(b)
  {
    assert a[|a| - 7..] == b[|b| - 7..];
  }

  /** The trend classifies the recent scores only through their two halves'
      integer sums and sizes; raising a score of the second half can only
      move the label from declining towards improving. */
  lemma RaisingLaterScoreNeverWorsens(first: seq<int>, second: seq<int>, j: nat, d: nat)
    requires |first| > 0 && j < |second|
    ensures ImprovingBy(first, second) ==> ImprovingBy(first, second[j := second[j] + d])
    ensures DecliningBy(first, second[j := second[j] + d]) ==> DecliningBy(first, second)
  {
    SumUpdate(second, j, second[j] + d);
    assert Sum(second[j := second[j] + d]) * |first| == Sum(second) * |first| + d * |first|;
  }

  /** Replacing one element changes the sum by the difference. */
  lemma {:induction false} SumUpdate(xs: seq<int>, j: nat, v: int)
    requires j < |xs|
    ensures Sum(xs[j := v]) == Sum(xs) - xs[j] + v
  {
    var ys := xs[j := v];
    if j == |xs| - 1 {
      assert ys[..|ys| - 1] == xs[..|xs| - 1];
    } else {
      SumUpdate(xs[..|xs| - 1], j, v);
      assert ys[..|ys| - 1] == xs[..|xs| - 1][j := v];
    }
  }

  // ---------------------------------------------------------------------
  // Focus hours

  /** `Math.round((totalSessions * 25) / 60)`: each session counts as 25 minutes. */
  function FocusHours(totalSessions: nat): (hours: nat)
    ensures 120 * hours <= 50 * totalSessions + 60 < 120 * (hours + 1)
  {
    RoundDiv(totalSessions * 25, 60)
  }

  /** The hours are `Math.round` of the exact quotient, and they agree with
      the dashboard's focus time over the same number of 25-minute sessions. */
  lemma FocusHoursAgreeWithDashboard(totalSessions: nat)
    ensures (FocusHours(totalSessions) as real) <= (totalSessions * 25) as real / 60.0 + 0.5
                                                < (FocusHours(totalSessions) as real) + 1.0
    ensures Dashboard.FocusTime(Some(seq(totalSessions, _ => 25))) == FocusHours(totalSessions)
  {
    RoundDivIsRoundOfQuotient(totalSessions * 25, 60);
    var durations: seq<int> := seq(totalSessions, _ => 25);
    SumConstant(durations, 25);
  }
}
