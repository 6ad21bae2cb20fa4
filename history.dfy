/** The result record of a finished session and the history it is appended
    to (aim_trainer.py, calculate_average_click_interval and save_result).
    Reading and writing the JSON file is not part of this module: only the
    record's contents and the "keep the last 100" rule are. */
module History {
  import opened Util
  import opened Geometry

  datatype Record = Record(
    timestamp: string,
    score: int,
    totalClicks: nat,
    hitClicks: nat,
    accuracy: real,
    timeElapsed: real,
    maxCombo: nat,
    maxBalls: nat,
    avgClickInterval: real,
    gameMode: Mode)

  /** How many records the history file keeps. */
  const HistoryLimit := 100

  function Sum(s: seq<int>): int
  {
    if s == [] then 0 else Sum(s[..|s| - 1]) + s[|s| - 1]
  }

  /** The differences between consecutive hit times, oldest first. */
  function Gaps(times: seq<int>): (gaps: seq<int>)
    ensures |gaps| == if |times| < 2 then 0 else |times| - 1
  {
    if |times| < 2 then [] else Gaps(times[..|times| - 1]) + [times[|times| - 1] - times[|times| - 2]]
  }

  /** The average gap, in closed form: the gaps telescope to last - first. */
  function MeanInterval(times: seq<int>): (m: real)
    ensures |times| < 2 ==> m == 0.0
    ensures |times| >= 2 ==> m * (|times| - 1) as real == Sum(Gaps(times)) as real
  {
    if |times| < 2 then 0.0
    else
      GapsTelescope(times);
      (times[|times| - 1] - times[0]) as real / (|times| - 1) as real
  }

  /** The sum of the gaps between consecutive hits is the time from the
      first hit to the last. */
  lemma {:induction false} GapsTelescope(times: seq<int>)
    requires |times| >= 1
    ensures Sum(Gaps(times)) == times[|times| - 1] - times[0]
  {
    if |times| >= 2 {
      var front := times[..|times| - 1];
      GapsTelescope(front);
      var gaps := Gaps(times);
      assert gaps[..|gaps| - 1] == Gaps(front);
    }
  }

  /** One more hit time adds one gap at the end. */
  lemma GapsStep(times: seq<int>, i: nat)
    requires 1 <= i < |times|
    ensures Gaps(times[..i + 1]) == Gaps(times[..i]) + [times[i] - times[i - 1]]
  {
    assert times[..i + 1][..i] == times[..i];
  }

  /** calculate_average_click_interval: the mean of the consecutive gaps,
      0 with fewer than two hits. */
  method AverageClickInterval(times: seq<int>) returns (avg: real)
    ensures avg == MeanInterval(times)
  {
    if |times| < 2 {
      return 0.0;
    }
    var intervals: seq<int> := [];
    var i := 1;
    while i < |times|
      invariant 1 <= i <= |times|
      invariant intervals == Gaps(times[..i])
    {
      GapsStep(times, i);
      intervals := intervals + [times[i] - times[i - 1]];
      i := i + 1;
    }
    assert times[..i] == times;
    GapsTelescope(times);
    avg := Sum(intervals) as real / |intervals| as real;
  }

  /** hit / total as an exact fraction; 0 without clicks. */
  function Accuracy(hit: nat, total: nat): (a: real)
    ensures hit <= total ==> 0.0 <= a <= 1.0
    ensures total > 0 ==> a * total as real == hit as real
    ensures total == 0 ==> a == 0.0
  {
    if total > 0 then hit as real / total as real else 0.0
  }

  /** `(now - start_time) / 1000.0 if start_time else 0`: a start time of 0
      counts as absent, as Python's truth test makes it. */
  function ElapsedSeconds(startTime: Option<int>, now: int): (secs: real)
    ensures startTime.None? || startTime.value == 0 ==> secs == 0.0
    ensures startTime.Some? && startTime.value != 0 ==> secs * 1000.0 == (now - startTime.value) as real
  {
    if startTime.Some? && startTime.value != 0 then (now - startTime.value) as real / 1000.0 else 0.0
  }

  /** The record save_result builds; none when the timer never started or no
      click was made. `combo` is the streak at the end of the session. */
  function MakeRecord(timestamp: string, score: int, totalClicks: nat, hitClicks: nat, combo: nat,
                      maxBalls: nat, avgInterval: real, mode: Mode, startTime: Option<int>, now: int): (r: Option<Record>)
    ensures r.Some? <==> startTime.Some? && totalClicks > 0
    ensures r.Some? ==>
              && r.value.score == score && r.value.totalClicks == totalClicks
              && r.value.hitClicks == hitClicks && r.value.maxCombo == combo
              && r.value.accuracy * totalClicks as real == hitClicks as real
              && (hitClicks <= totalClicks ==> 0.0 <= r.value.accuracy <= 1.0)
  {
    if startTime.None? || totalClicks == 0 then None
    else Some(Record(timestamp, score, totalClicks, hitClicks, Accuracy(hitClicks, totalClicks),
                     ElapsedSeconds(startTime, now), combo, maxBalls, avgInterval, mode))
  }

  /** `(history + [record])[-100:]`: the new record is last, and only the
      oldest entries are dropped, so that at most 100 remain. */
  function KeepRecent<T(==)>(history: seq<T>, record: T): (kept: seq<T>)
    ensures |kept| == Min(|history| + 1, HistoryLimit)
    ensures SuffixOf(kept, history + [record])
    ensures kept[|kept| - 1] == record
  {
    var grown := history + [record];
    if |grown| <= HistoryLimit then grown else grown[|grown| - HistoryLimit..]
  }
}
