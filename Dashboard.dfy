/** The dashboard page's arithmetic: the stress and energy levels derived
    from a logged mood, the no-user guard on logging, and the three figures
    of `loadStats` (the rounded mean mood, the journal count and the focus
    hours). */
module Dashboard {
  import opened Common

  /** `Math.ceil((11 - mood) / 2)`. */
  function StressLevel(mood: int): (s: int)
    ensures 2 * s - 2 < 11 - mood <= 2 * s
  {
    CeilDiv(11 - mood, 2)
  }

  /** `Math.ceil(mood / 2)`. */
  function EnergyLevel(mood: int): (e: int)
    ensures 2 * e - 2 < mood <= 2 * e
  {
    CeilDiv(mood, 2)
  }

  /** Every mood on the 1..10 scale gives levels on the 1..5 scale the
      insights page displays as "/5". */
  lemma LevelsInRange(mood: int)
    requires 1 <= mood <= 10
    ensures 1 <= StressLevel(mood) <= 5
    ensures 1 <= EnergyLevel(mood) <= 5
  {
  }

  /** A better mood never means more stress nor less energy. */
  lemma LevelsMonotone(m1: int, m2: int)
    requires m1 <= m2
    ensures StressLevel(m2) <= StressLevel(m1)
    ensures EnergyLevel(m1) <= EnergyLevel(m2)
  {
  }

  /** The two levels always add up to 6, so either determines the other. */
  lemma LevelsComplementary(mood: int)
    ensures StressLevel(mood) + EnergyLevel(mood) == 6
  {
  }

  /** The row `handleLogMood` inserts into `mood_logs`. */
  datatype MoodEntry = MoodEntry(userId: string, moodScore: int, stressLevel: int, energyLevel: int)

  /** `handleLogMood`: without a signed-in user nothing is logged; otherwise
      the entry carries the selected mood and the two derived levels. */
  function LogMood(user: Option<string>, mood: int): (entry: Option<MoodEntry>)
    ensures entry.None? <==> user.None?
    ensures entry.Some? ==>
      && entry.value.userId == user.value && entry.value.moodScore == mood
      && entry.value.stressLevel == StressLevel(mood) && entry.value.energyLevel == EnergyLevel(mood)
      && entry.value.stressLevel + entry.value.energyLevel == 6
      && (1 <= mood <= 10 ==> 1 <= entry.value.stressLevel <= 5 && 1 <= entry.value.energyLevel <= 5)
  {
    if user.None? then None
    else Some(MoodEntry(user.value, mood, StressLevel(mood), EnergyLevel(mood)))
  }

  /** The three dashboard figures. */
  datatype Stats = Stats(moodAvg: int, journalCount: nat, focusTime: int)

  /** `moodData.data?.length ? Math.round(sum / length) : 0`. */
  function MoodAverage(moodData: Option<seq<int>>): (avg: int)
    ensures moodData.None? || |moodData.value| == 0 ==> avg == 0
    ensures moodData.Some? && |moodData.value| > 0 ==>
      2 * |moodData.value| * avg <= 2 * Sum(moodData.value) + |moodData.value| < 2 * |moodData.value| * (avg + 1)
  {
    if moodData.Some? && |moodData.value| > 0 then RoundDiv(Sum(moodData.value), |moodData.value|) else 0
  }

  /** The rounded mean lies between any lower and upper bound of the scores,
      in particular between their minimum and maximum. */
  lemma MoodAverageBetween(scores: seq<int>, lo: int, hi: int)
    requires |scores| > 0
    requires forall i :: 0 <= i < |scores| ==> lo <= scores[i] <= hi
    ensures lo <= MoodAverage(Some(scores)) <= hi
  {
    var n := |scores|;
    SumBounds(scores, lo, hi);
    assert n * lo == lo * n && n * hi == hi * n;
    RoundDivMonotone(lo * n, Sum(scores), n);
    RoundDivMonotone(Sum(scores), hi * n, n);
    RoundDivExact(lo, n);
    RoundDivExact(hi, n);
  }

  /** The mean mood is `Math.round` of the exact mean. */
  lemma MoodAverageRoundsMean(scores: seq<int>)
    requires |scores| > 0
    ensures var avg := MoodAverage(Some(scores)) as real;
            var mean := (Sum(scores) as real) / (|scores| as real);
            avg <= mean + 0.5 < avg + 1.0
  {
    RoundDivIsRoundOfQuotient(Sum(scores), |scores|);
  }

  /** `journalData.data?.length || 0`. */
  function JournalCount<T>(journalData: Option<seq<T>>): (n: nat)
    ensures journalData.Some? ==> n == |journalData.value|
    ensures journalData.None? ==> n == 0
  {
    if journalData.Some? then |journalData.value| else 0
  }

  /** `Math.round((sum of duration_minutes || 0) / 60)`: hours of focus. */
  function FocusTime(focusData: Option<seq<int>>): (hours: int)
    ensures focusData.None? || |focusData.value| == 0 ==> hours == 0
  {
    var minutes := if focusData.Some? then Sum(focusData.value) else 0;
    RoundDiv(minutes, 60)
  }

  /** The focus hours are the total minutes rounded to the nearest hour, and
      more minutes never give fewer hours. */
  lemma FocusTimeRounds(durations: seq<int>, more: seq<int>)
    requires forall i :: 0 <= i < |more| ==> more[i] >= 0
    ensures 60 * FocusTime(Some(durations)) - 30 <= Sum(durations) < 60 * FocusTime(Some(durations)) + 30
    ensures FocusTime(Some(durations)) <= FocusTime(Some(durations + more))
  {
    SumAppend(durations, more);
    SumNonNegative(more);
    RoundDivMonotone(Sum(durations), Sum(durations + more), 60);
  }

  /** `loadStats`: the three figures from the three query results. */
  function LoadStats<J>(moodData: Option<seq<int>>, journalData: Option<seq<J>>, focusData: Option<seq<int>>): (s: Stats)
    ensures s.moodAvg == MoodAverage(moodData)
    ensures s.journalCount == JournalCount(journalData)
    ensures s.focusTime == FocusTime(focusData)
  {
    Stats(MoodAverage(moodData), JournalCount(journalData), FocusTime(focusData))
  }

  /** With every score on the 1..10 scale the displayed mean is on it too,
      and the focus hours are never negative when no duration is. */
  lemma StatsInRange<J>(moodData: Option<seq<int>>, journalData: Option<seq<J>>, focusData: Option<seq<int>>)
    requires moodData.Some? ==> forall i :: 0 <= i < |moodData.value| ==> 1 <= moodData.value[i] <= 10
    requires focusData.Some? ==> forall i :: 0 <= i < |focusData.value| ==> focusData.value[i] >= 0
    ensures moodData.Some? && |moodData.value| > 0 ==> 1 <= LoadStats(moodData, journalData, focusData).moodAvg <= 10
    ensures moodData.None? || |moodData.value| == 0 ==> LoadStats(moodData, journalData, focusData).moodAvg == 0
    ensures LoadStats(moodData, journalData, focusData).focusTime >= 0
  {
    if moodData.Some? && |moodData.value| > 0 {
      MoodAverageBetween(moodData.value, 1, 10);
    }
    if focusData.Some? {
      SumNonNegative(focusData.value);
    }
  }
}
