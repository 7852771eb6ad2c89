/** The "compared to previous" card: statistics of a session and the change
    of each statistic against the previous session. JavaScript numbers are
    modelled as exact reals. */
module Comparison {
  import opened Wrappers
  import opened Workouts

  datatype Stats = Stats(sets: int, reps: int, volume: real, avgWeight: real)

  /** Total reps of a session, summed from the first set to the last. */
  function SumReps(session: seq<WorkoutSet>): int {
    if session == [] then 0
    else SumReps(session[..|session| - 1]) + session[|session| - 1].reps
  }

  /** Volume of a session: the sum over its sets of weight times reps. */
  function Volume(session: seq<WorkoutSet>): real {
    if session == [] then 0.0
    else Volume(session[..|session| - 1]) + session[|session| - 1].weight * session[|session| - 1].reps as real
  }

  /** `calculateStats`: the empty session has all-zero statistics;
      otherwise the count of sets, the total reps, the volume and the
      weight per rep, which is 0 rather than a division by zero when
      there are no reps. */
  function CalculateStats(session: seq<WorkoutSet>): (r: Stats)
    ensures |session| == 0 ==> r == Stats(0, 0, 0.0, 0.0)
    ensures r.sets == |session|
    ensures r.reps == SumReps(session) && r.volume == Volume(session)
    ensures r.reps > 0 ==> r.avgWeight * r.reps as real == r.volume
    ensures r.reps <= 0 ==> r.avgWeight == 0.0
  {
    if |session| == 0 then Stats(0, 0, 0.0, 0.0)
    else
      var reps := SumReps(session);
      var volume := Volume(session);
      Stats(|session|, reps, volume, if reps > 0 then volume / reps as real else 0.0)
  }

  /** Total reps and volume of two sessions put together are the sums. */
  lemma {:induction false} SumsOfConcat(a: seq<WorkoutSet>, b: seq<WorkoutSet>)
    ensures SumReps(a + b) == SumReps(a) + SumReps(b)
    ensures Volume(a + b) == Volume(a) + Volume(b)
    decreases |b|
  {
    if b == [] {
      assert a + b == a;
    } else {
      var init := b[..|b| - 1];
      assert (a + b)[..|a + b| - 1] == a + init;
      assert (a + b)[|a + b| - 1] == b[|b| - 1];
      SumsOfConcat(a, init);
    }
  }

  /** With non-negative weights and reps, reps and volume are non-negative,
      and there is no volume without reps. */
  lemma {:induction false} StatsNonNegative(session: seq<WorkoutSet>)
    requires forall k :: 0 <= k < |session| ==> session[k].weight >= 0.0 && session[k].reps >= 0
    ensures SumReps(session) >= 0 && Volume(session) >= 0.0
    ensures SumReps(session) == 0 ==> Volume(session) == 0.0
    ensures CalculateStats(session).avgWeight >= 0.0
  {
    if session != [] {
      var init := session[..|session| - 1];
      var last := session[|session| - 1];
      StatsNonNegative(init);
      assert last.weight * last.reps as real >= 0.0;
      if SumReps(session) == 0 {
        assert last.reps == 0;
      }
      var r := CalculateStats(session);
      if r.reps > 0 {
        assert r.avgWeight == r.volume / r.reps as real;
      }
    }
  }

  /** Volume lies between the lightest and the heaviest weight times the
      total reps. */
  lemma {:induction false} VolumeBetween(session: seq<WorkoutSet>, lo: real, hi: real)
    requires forall k :: 0 <= k < |session| ==> lo <= session[k].weight <= hi && session[k].reps >= 0
    ensures lo * SumReps(session) as real <= Volume(session) <= hi * SumReps(session) as real
  {
    if session != [] {
      var init := session[..|session| - 1];
      var last := session[|session| - 1];
      assert forall k :: 0 <= k < |init| ==> init[k] == session[k];
      VolumeBetween(init, lo, hi);
      var n := last.reps as real;
      var u := last.weight * n;
      ScaleBetween(last.weight, lo, hi, n, u);
      AddBounds(lo, hi, SumReps(init) as real, Volume(init), n, u, SumReps(session) as real, Volume(session));
    }
  }

  lemma AddBounds(lo: real, hi: real, a: real, v: real, n: real, u: real, total: real, sum: real)
    requires lo * a <= v <= hi * a
    requires lo * n <= u <= hi * n
    requires total == a + n && sum == v + u
    ensures lo * total <= sum <= hi * total
  {
    assert lo * (a + n) == lo * a + lo * n;
    assert hi * (a + n) == hi * a + hi * n;
  }

  lemma ScaleBetween(w: real, lo: real, hi: real, n: real, u: real)
    requires lo <= w <= hi && n >= 0.0 && u == w * n
    ensures lo * n <= u <= hi * n
  {
    assert (w - lo) * n >= 0.0;
    assert (hi - w) * n >= 0.0;
  }

  /** The weight per rep is a weighted mean: it lies between the lightest
      and the heaviest weight of the session. */
  lemma AvgWeightBetween(session: seq<WorkoutSet>, lo: real, hi: real)
    requires forall k :: 0 <= k < |session| ==> lo <= session[k].weight <= hi && session[k].reps >= 0
    requires SumReps(session) > 0
    ensures lo <= CalculateStats(session).avgWeight <= hi
  {
    var total, n := Volume(session), SumReps(session) as real;
    VolumeBetween(session, lo, hi);
    assert lo * n <= total <= hi * n;
    var r := CalculateStats(session);
    assert r.avgWeight * n == total;
    MeanBetween(r.avgWeight, total, n, lo, hi);
  }

  lemma MeanBetween(mean: real, total: real, n: real, lo: real, hi: real)
    requires n > 0.0 && mean * n == total && lo * n <= total <= hi * n
    ensures lo <= mean <= hi
  {
    CancelFactor(lo, mean, n);
    CancelFactor(mean, hi, n);
  }

  lemma CancelFactor(x: real, y: real, n: real)
    requires n > 0.0 && x * n <= y * n
    ensures x <= y
  {
    assert (y - x) * n >= 0.0;
  }

  /** A change and its percentage; `None` is JavaScript's `null`. */
  datatype Change = Change(change: Option<real>, percentage: Option<real>)

  /** The inner `getChange`: null against a previous value of 0, else the
      signed difference and the difference in percent of the previous value. */
  function GetChange(latest: real, previous: real): (r: Change)
    ensures r.change.None? <==> previous == 0.0
    ensures r.percentage.None? <==> previous == 0.0
    ensures r.change.Some? ==> previous + r.change.value == latest
    ensures r.percentage.Some? ==> r.percentage.value * previous == r.change.value * 100.0
  {
    if previous == 0.0 then Change(None, None)
    else
      var change := latest - previous;
      Change(Some(change), Some(change / previous * 100.0))
  }

  /** The sign of a change says whether the statistic went up or down. */
  lemma ChangeDirection(latest: real, previous: real)
    requires previous != 0.0
    ensures GetChange(latest, previous).change.value > 0.0 <==> latest > previous
    ensures GetChange(latest, previous).change.value < 0.0 <==> latest < previous
    ensures previous > 0.0 ==>
      (GetChange(latest, previous).percentage.value > 0.0 <==> latest > previous)
    ensures previous > 0.0 ==>
      (GetChange(latest, previous).percentage.value < 0.0 <==> latest < previous)
  {
    var r := GetChange(latest, previous);
    if previous > 0.0 {
      var c := r.change.value;
      var p := r.percentage.value;
      assert p * previous == c * 100.0;
      if p > 0.0 {
        assert p * previous > 0.0;
      } else {
        assert p * previous <= 0.0;
      }
      if p < 0.0 {
        assert p * previous < 0.0;
      } else {
        assert p * previous >= 0.0;
      }
    }
  }

  /** The four changes the card shows. */
  datatype Comparison = Comparison(
    latest: Stats,
    sets: Change,
    reps: Change,
    volume: Change,
    avgWeight: Change)

  /** `WorkoutComparison`: nothing for an empty latest session, else the
      latest statistics and the change of each against the previous ones. */
  function Compare(latestSession: seq<WorkoutSet>, previousSession: seq<WorkoutSet>): (r: Option<Comparison>)
    ensures r.None? <==> |latestSession| == 0
    ensures r.Some? ==> r.value.latest == CalculateStats(latestSession)
    ensures r.Some? ==> r.value.sets == GetChange(|latestSession| as real, |previousSession| as real)
    ensures r.Some? ==>
      var l := CalculateStats(latestSession);
      var p := CalculateStats(previousSession);
      && r.value.reps == GetChange(l.reps as real, p.reps as real)
      && r.value.volume == GetChange(l.volume, p.volume)
      && r.value.avgWeight == GetChange(l.avgWeight, p.avgWeight)
  {
    var l := CalculateStats(latestSession);
    var p := CalculateStats(previousSession);
    if |latestSession| == 0 then None
    else
      Some(Comparison(
        l,
        GetChange(l.sets as real, p.sets as real),
        GetChange(l.reps as real, p.reps as real),
        GetChange(l.volume, p.volume),
        GetChange(l.avgWeight, p.avgWeight)))
  }

  /** The first session of an exercise has nothing to compare against:
      every change is null. */
  lemma FirstSessionHasNoChanges(latestSession: seq<WorkoutSet>)
    requires |latestSession| > 0
    ensures var r := Compare(latestSession, []);
      && r.Some?
      && r.value.sets == Change(None, None) && r.value.reps == Change(None, None)
      && r.value.volume == Change(None, None) && r.value.avgWeight == Change(None, None)
  {
  }

  /** Repeating a session with some reps shows no change in sets or reps:
      both differences and both percentages are zero. */
  lemma RepeatedSessionUnchanged(session: seq<WorkoutSet>)
    requires |session| > 0
    requires forall k :: 0 <= k < |session| ==> session[k].reps >= 1
    ensures var r := Compare(session, session);
      && r.Some?
      && r.value.sets == Change(Some(0.0), Some(0.0))
      && r.value.reps == Change(Some(0.0), Some(0.0))
  {
    StatsPositiveReps(session);
  }

  /** Sets of at least one rep give a positive total. */
  lemma {:induction false} StatsPositiveReps(session: seq<WorkoutSet>)
    requires |session| > 0
    requires forall k :: 0 <= k < |session| ==> session[k].reps >= 1
    ensures SumReps(session) >= |session|
  {
    var init := session[..|session| - 1];
    if |init| > 0 {
      StatsPositiveReps(init);
    }
  }
}
