/**
 * The metrics engine: the two comparison-window selections, the change
 * card, BMI and its category, goal progress and target BMI, and the record
 * `computeMetrics` builds from a snapshot of the store.
 */
module Metrics {
  import opened Options
  import opened Entries

  // ---------------------------------------------------------------------
  // Threshold scan: the first entry, going back from the latest, that is
  // at least `daysAgo` days older than the latest entry
  // ---------------------------------------------------------------------

  /** Among `ws[..n]`, the largest index whose entry is at least `days` days before `anchor`. */
  function LastOlderIndex(ws: seq<Entry>, anchor: Date, days: int, n: nat): (r: Option<nat>)
    requires n <= |ws|
    ensures r.Some? ==> r.value < n && anchor - ws[r.value].date >= days
    ensures r.Some? ==> forall j :: r.value < j < n ==> anchor - ws[j].date < days
    ensures r.None? ==> forall j :: 0 <= j < n ==> anchor - ws[j].date < days
  {
    if n == 0 then None
    else if anchor - ws[n - 1].date >= days then Some(n - 1)
    else LastOlderIndex(ws, anchor, days, n - 1)
  }

  /**
   * The weight the threshold scan reports; `None` is "not enough data",
   * which happens exactly when the store is empty or no entry is old enough.
   */
  function ThresholdWeight(ws: seq<Entry>, daysAgo: int): (w: Option<real>)
    ensures w.None? <==> ws == [] || forall j :: 0 <= j < |ws| ==> ws[|ws| - 1].date - ws[j].date < daysAgo
    ensures w.Some? ==>
      exists i :: 0 <= i < |ws| && w.value == ws[i].weight
        && ws[|ws| - 1].date - ws[i].date >= daysAgo
        && forall j :: i < j < |ws| ==> ws[|ws| - 1].date - ws[j].date < daysAgo
  {
    if ws == [] then None
    else match LastOlderIndex(ws, ws[|ws| - 1].date, daysAgo, |ws|)
      case None => None
      case Some(i) => Some(ws[i].weight)
  }

  /**
   * `getClosestWeight`: walks back from the latest entry and returns the
   * weight of the first one at least `daysAgo` days older than it. When no
   * entry is old enough the answer is `None`, never the oldest entry.
   */
  method ClosestWeight(ws: seq<Entry>, daysAgo: int) returns (w: Option<real>)
    ensures w == ThresholdWeight(ws, daysAgo)
    ensures w.Some? <==> ws != [] && exists j :: 0 <= j < |ws| && ws[|ws| - 1].date - ws[j].date >= daysAgo
  {
    if |ws| == 0 {
      return None;
    }
    var latest := ws[|ws| - 1].date;
    var i := |ws| - 1;
    while i >= 0
      invariant -1 <= i < |ws|
      invariant LastOlderIndex(ws, latest, daysAgo, |ws|) == LastOlderIndex(ws, latest, daysAgo, i + 1)
      decreases i
    {
      var diffDays := latest - ws[i].date;
      if diffDays >= daysAgo {
        return Some(ws[i].weight);
      }
      i := i - 1;
    }
    return None;
  }

  // ---------------------------------------------------------------------
  // Nearest-date scan: the entry whose date is closest to a target instant
  // ---------------------------------------------------------------------

  /** `Math.abs(new Date(e.date) - target)`, in days. */
  function Distance(e: Entry, target: real): (d: real)
    ensures d >= 0.0
    ensures d == e.date as real - target || d == target - e.date as real
  {
    if e.date as real >= target then e.date as real - target else target - e.date as real
  }

  /**
   * The index `findClosestEntry` settles on: a forward scan that replaces
   * the candidate only on a strictly smaller distance, so the first of
   * several equally near entries wins.
   */
  function NearestIndex(ws: seq<Entry>, target: real): (k: nat)
    requires |ws| > 0
    ensures k < |ws|
    ensures forall j :: 0 <= j < |ws| ==> Distance(ws[k], target) <= Distance(ws[j], target)
    ensures forall j :: 0 <= j < k ==> Distance(ws[k], target) < Distance(ws[j], target)
  {
    NearestBelow(ws, target, |ws|)
  }

  /** The choice of the scan after it has looked at `ws[..n]`. */
  function NearestBelow(ws: seq<Entry>, target: real, n: nat): (k: nat)
    requires 1 <= n <= |ws|
    ensures k < n
    ensures forall j :: 0 <= j < n ==> Distance(ws[k], target) <= Distance(ws[j], target)
    ensures forall j :: 0 <= j < k ==> Distance(ws[k], target) < Distance(ws[j], target)
  {
    if n == 1 then 0
    else
      var k := NearestBelow(ws, target, n - 1);
      if Distance(ws[n - 1], target) < Distance(ws[k], target) then n - 1 else k
  }

  /** `findClosestEntry`: the loop with the mutable `closest` and `minDiff`. */
  method ClosestEntry(ws: seq<Entry>, target: real) returns (closest: Entry)
    requires |ws| > 0
    ensures closest == ws[NearestIndex(ws, target)]
  {
    closest := ws[0];
    var minDiff := Distance(ws[0], target);
    ghost var k := 0;
    var i := 1;
    while i < |ws|
      invariant 1 <= i <= |ws|
      invariant k == NearestBelow(ws, target, i)
      invariant closest == ws[k] && minDiff == Distance(closest, target)
    {
      var diff := Distance(ws[i], target);
      if diff < minDiff {
        minDiff := diff;
        closest := ws[i];
        k := i;
      }
      i := i + 1;
    }
  }

  // ---------------------------------------------------------------------
  // BMI, its category and goal progress
  // ---------------------------------------------------------------------

  /** `weight / (heightM * heightM)` with `heightM = heightCm / 100`: the BMI times the squared height in metres is the weight. */
  function Bmi(weightKg: real, heightCm: real): (bmi: real)
    requires heightCm > 0.0
    ensures bmi * (heightCm / 100.0 * (heightCm / 100.0)) == weightKg
  {
    QuotientTimesSquare(weightKg, heightCm / 100.0);
    weightKg / (heightCm / 100.0 * (heightCm / 100.0))
  }

  lemma QuotientTimesSquare(w: real, m: real)
    requires m > 0.0
    ensures m * m != 0.0
    ensures (w / (m * m)) * (m * m) == w
  {
    PositiveSquare(m);
  }

  lemma PositiveSquare(x: real)
    requires x > 0.0
    ensures x * x > 0.0
  {
  }

  datatype BmiCategory = Underweight | NormalWeight | Overweight | Obese {
    /** The text shown for the category. */
    function Name(): string {
      match this
      case Underweight => "Underweight"
      case NormalWeight => "Normal weight"
      case Overweight => "Overweight"
      case Obese => "Obese"
    }

    /** Different categories show different texts. */
    lemma NamesDistinct(other: BmiCategory)
      ensures Name() == other.Name() <==> this == other
    {
    }

    /** The band of BMI values the category stands for: lower bounds inclusive, upper bounds exclusive. */
    predicate Covers(bmi: real) {
      match this
      case Underweight => bmi < 18.5
      case NormalWeight => 18.5 <= bmi < 25.0
      case Overweight => 25.0 <= bmi < 30.0
      case Obese => 30.0 <= bmi
    }

    /** Position of the category on the BMI scale. */
    function Rank(): nat {
      match this
      case Underweight => 0
      case NormalWeight => 1
      case Overweight => 2
      case Obese => 3
    }
  }

  /** The if/else chain on 18.5, 25 and 30; its result is the only category whose band holds `bmi`. */
  function CategoryOf(bmi: real): (c: BmiCategory)
    ensures c.Covers(bmi)
    ensures forall other: BmiCategory :: other.Covers(bmi) ==> other == c
  {
    if bmi < 18.5 then Underweight
    else if bmi < 25.0 then NormalWeight
    else if bmi < 30.0 then Overweight
    else Obese
  }

  /** A higher BMI never lands in a lower category. */
  lemma CategoryMonotone(b1: real, b2: real)
    requires b1 <= b2
    ensures CategoryOf(b1).Rank() <= CategoryOf(b2).Rank()
  {
  }

  /** A BMI of exactly 18.5 is normal weight: 53.465 kg at 170 cm. */
  lemma BoundaryIsNormalWeight()
    ensures Bmi(53.465, 170.0) == 18.5
    ensures CategoryOf(Bmi(53.465, 170.0)) == NormalWeight
  {
  }

  datatype GoalProgress = GoalReached | ToLose(kg: real) | ToGain(kg: real)

  function Abs(x: real): real {
    if x < 0.0 then -x else x
  }

  /** The classification of `current - goal`: zero, positive or negative, with its absolute value. */
  function GoalProgressOf(current: real, goal: real): (p: GoalProgress)
    ensures p == GoalReached <==> current == goal
    ensures p.ToLose? <==> current > goal
    ensures p.ToGain? <==> current < goal
    ensures !p.GoalReached? ==> p.kg > 0.0 && p.kg == Abs(current - goal)
  {
    var diff := current - goal;
    if diff == 0.0 then GoalReached
    else if diff > 0.0 then ToLose(Abs(diff))
    else ToGain(Abs(diff))
  }

  /** How far the current weight is above the goal, read back from the progress message. */
  function SignedRemaining(p: GoalProgress): real {
    match p
    case GoalReached => 0.0
    case ToLose(kg) => kg
    case ToGain(kg) => -kg
  }

  /** The message loses no information: the goal plus what it says is left gives back the current weight. */
  lemma GoalProgressRoundTrip(current: real, goal: real)
    ensures goal + SignedRemaining(GoalProgressOf(current, goal)) == current
  {
  }

  // ---------------------------------------------------------------------
  // The metrics record
  // ---------------------------------------------------------------------

  /**
   * What `computeMetrics` returns. `None` stands for `null` (and for the
   * empty string of an unset category or progress text); texts are kept as
   * the values they are built from.
   */
  datatype Metrics = Metrics(
    current: Option<real>,
    start: Option<real>,
    compareWeight: Option<real>,
    change: real,
    bmi: Option<real>,
    bmiCategory: Option<BmiCategory>,
    goalDisplay: Option<real>,
    goalProgress: Option<GoalProgress>,
    targetBmi: Option<real>)

  const DefaultMetrics: Metrics := Metrics(None, None, None, 0.0, None, None, None, None, None)

  /** A height or goal counts as set when it is present and positive (`x && x > 0`). */
  predicate IsSet(x: Option<real>) {
    x.Some? && x.value > 0.0
  }

  /** The comparison weight: the entry nearest to a week or thirty days before `today`, otherwise the first entry. */
  function CompareWeight(ws: seq<Entry>, mode: string, today: real): (w: real)
    requires |ws| > 0
    ensures mode != "week" && mode != "month" ==> w == ws[0].weight
    ensures mode == "week" || mode == "month" ==>
      var target := if mode == "week" then today - 7.0 else today - 30.0;
      w == ws[NearestIndex(ws, target)].weight
  {
    if mode == "week" then ws[NearestIndex(ws, today - 7.0)].weight
    else if mode == "month" then ws[NearestIndex(ws, today - 30.0)].weight
    else ws[0].weight
  }

  /**
   * The record `computeMetrics` returns for a snapshot `input` (`None` when
   * the argument is not an array), the profile values, a comparison mode and
   * today's date as a day number with its time of day as the fraction.
   */
  function MetricsOf(input: Option<seq<Entry>>, heightCm: Option<real>, goalKg: Option<real>,
                     mode: string, today: real): (m: Metrics)
    ensures m.current.None? <==> input.None? || input.value == []
    ensures m.current.None? ==> m == DefaultMetrics
    ensures m.current.Some? ==> m.current == Some(input.value[|input.value| - 1].weight)
  {
    if input.None? || |input.value| == 0 then DefaultMetrics
    else WithGoal(WithBmi(WeightFields(input.value, mode, today), heightCm), goalKg, heightCm)
  }

  /** Current, start and comparison weights and the change, for a non-empty snapshot. */
  function WeightFields(ws: seq<Entry>, mode: string, today: real): Metrics
    requires |ws| > 0
  {
    var current := ws[|ws| - 1].weight;
    var compare := CompareWeight(ws, mode, today);
    DefaultMetrics.(current := Some(current), start := Some(ws[0].weight),
                    compareWeight := Some(compare), change := current - compare)
  }

  /** BMI and its category, when the height is set. */
  function WithBmi(m: Metrics, heightCm: Option<real>): Metrics
    requires m.current.Some?
  {
    if IsSet(heightCm) then
      var bmi := Bmi(m.current.value, heightCm.value);
      m.(bmi := Some(bmi), bmiCategory := Some(CategoryOf(bmi)))
    else m
  }

  /** Goal display, goal progress and, when the height is set too, the target BMI. */
  function WithGoal(m: Metrics, goalKg: Option<real>, heightCm: Option<real>): Metrics
    requires m.current.Some?
  {
    if IsSet(goalKg) then
      var withProgress := m.(goalDisplay := Some(goalKg.value),
                             goalProgress := Some(GoalProgressOf(m.current.value, goalKg.value)));
      if IsSet(heightCm) then withProgress.(targetBmi := Some(Bmi(goalKg.value, heightCm.value)))
      else withProgress
    else m
  }

  /**
   * What the record means: the empty state, current and start weights, the
   * comparison weight per mode, change as current minus comparison, and
   * BMI, category, goal progress and target BMI present exactly when their
   * inputs are set, each consistent with its defining relation.
   */
  lemma MetricsMeaning(input: Option<seq<Entry>>, heightCm: Option<real>, goalKg: Option<real>,
                       mode: string, today: real)
    ensures var m := MetricsOf(input, heightCm, goalKg, mode, today);
      input.None? || input.value == [] ==> m == DefaultMetrics
    ensures var m := MetricsOf(input, heightCm, goalKg, mode, today);
      input.Some? && input.value != [] ==>
      var ws := input.value;
      && m.current == Some(ws[|ws| - 1].weight)
      && m.start == Some(ws[0].weight)
      && m.compareWeight.Some?
      && m.change == m.current.value - m.compareWeight.value
      && (mode != "week" && mode != "month" ==> m.compareWeight == m.start)
      && (mode == "week" ==> m.compareWeight == Some(ws[NearestIndex(ws, today - 7.0)].weight))
      && (mode == "month" ==> m.compareWeight == Some(ws[NearestIndex(ws, today - 30.0)].weight))
      && (m.bmi.Some? <==> IsSet(heightCm))
      && (m.goalProgress.Some? <==> IsSet(goalKg))
      && (m.targetBmi.Some? <==> IsSet(goalKg) && IsSet(heightCm))
    ensures var m := MetricsOf(input, heightCm, goalKg, mode, today);
      m.bmi.Some? ==>
      && IsSet(heightCm) && m.current.Some? && m.bmiCategory.Some?
      && m.bmi.value == Bmi(m.current.value, heightCm.value)
      && m.bmiCategory.value.Covers(m.bmi.value)
    ensures var m := MetricsOf(input, heightCm, goalKg, mode, today);
      m.bmi.None? ==> m.bmiCategory.None?
    ensures var m := MetricsOf(input, heightCm, goalKg, mode, today);
      m.goalProgress.Some? ==>
      && IsSet(goalKg) && m.current.Some? && m.goalDisplay == goalKg
      && goalKg.value + SignedRemaining(m.goalProgress.value) == m.current.value
      && m.goalProgress == Some(GoalProgressOf(m.current.value, goalKg.value))
    ensures var m := MetricsOf(input, heightCm, goalKg, mode, today);
      m.goalProgress.None? ==> m.goalDisplay.None?
    ensures var m := MetricsOf(input, heightCm, goalKg, mode, today);
      m.targetBmi.Some? ==>
      IsSet(heightCm) && IsSet(goalKg) && m.targetBmi.value == Bmi(goalKg.value, heightCm.value)
  {
  }

  /** `computeMetrics`: the record is filled in field by field, as in the source. */
  method ComputeMetrics(input: Option<seq<Entry>>, heightCm: Option<real>, goalKg: Option<real>,
                        mode: string, today: real) returns (result: Metrics)
    ensures result == MetricsOf(input, heightCm, goalKg, mode, today)
  {
    result := DefaultMetrics;
    if input.None? || |input.value| == 0 {
      return;
    }
    var ws := input.value;
    var current := ws[|ws| - 1].weight;
    var start := ws[0].weight;
    result := result.(current := Some(current), start := Some(start), compareWeight := Some(start));

    if mode == "week" {
      var closest := ClosestEntry(ws, today - 7.0);
      result := result.(compareWeight := Some(closest.weight));
    } else if mode == "month" {
      var closest := ClosestEntry(ws, today - 30.0);
      result := result.(compareWeight := Some(closest.weight));
    }
    result := result.(change := current - result.compareWeight.value);
    assert result == WeightFields(ws, mode, today);
    ghost var weightsPart := result;

    if IsSet(heightCm) {
      var bmi := Bmi(current, heightCm.value);
      result := result.(bmi := Some(bmi), bmiCategory := Some(CategoryOf(bmi)));
    }
    assert result == WithBmi(weightsPart, heightCm);
    ghost var bmiPart := result;

    if IsSet(goalKg) {
      result := result.(goalDisplay := Some(goalKg.value),
                        goalProgress := Some(GoalProgressOf(current, goalKg.value)));
      if IsSet(heightCm) {
        result := result.(targetBmi := Some(Bmi(goalKg.value, heightCm.value)));
      }
    }
    assert result == WithGoal(bmiPart, goalKg, heightCm);
  }

  /** At the goal weight the progress reads "reached" and the target BMI is the current BMI. */
  lemma AtGoalTargetIsCurrentBmi(ws: seq<Entry>, heightCm: real, goalKg: real, mode: string, today: real)
    requires ws != [] && ws[|ws| - 1].weight == goalKg
    requires heightCm > 0.0 && goalKg > 0.0
    ensures MetricsOf(Some(ws), Some(heightCm), Some(goalKg), mode, today).goalProgress == Some(GoalReached)
    ensures MetricsOf(Some(ws), Some(heightCm), Some(goalKg), mode, today).targetBmi
         == MetricsOf(Some(ws), Some(heightCm), Some(goalKg), mode, today).bmi
  {
  }

  // ---------------------------------------------------------------------
  // The change card and its mode button
  // ---------------------------------------------------------------------

  /** The modes the change card cycles through. */
  const Modes: seq<string> := ["total", "7days", "30days"]

  /** One click of the mode button. */
  function NextModeIndex(i: nat): (j: nat)
    requires i < |Modes|
    ensures j < |Modes|
  {
    (i + 1) % |Modes|
  }

  /** The mode index after `clicks` clicks starting from `i`. */
  function ModeAfterClicks(i: nat, clicks: nat): (j: nat)
    requires i < |Modes|
    ensures j < |Modes|
  {
    if clicks == 0 then i else NextModeIndex(ModeAfterClicks(i, clicks - 1))
  }

  /** The button steps through the modes in order. */
  lemma {:induction false} ModeCycle(i: nat, clicks: nat)
    requires i < |Modes|
    ensures ModeAfterClicks(i, clicks) == (i + clicks) % |Modes|
  {
    if clicks > 0 {
      ModeCycle(i, clicks - 1);
    }
  }

  /** Three clicks bring the button back to the mode it started from. */
  lemma ModeCycleReturns(i: nat, clicks: nat)
    requires i < |Modes|
    ensures ModeAfterClicks(i, clicks + |Modes|) == ModeAfterClicks(i, clicks)
  {
    ModeCycle(i, clicks);
    ModeCycle(i, clicks + |Modes|);
  }

  datatype ChangeValue =
    | NoEntries           // "--": the store is empty
    | NotEnoughData       // no entry is old enough for the window
    | Amount(kg: real)    // the change, positive for a gain

  datatype ChangeCard = ChangeCard(title: string, subtitle: string, value: ChangeValue)

  /**
   * `updateWeightChangeMetric` without its DOM writes: the label, subtitle
   * and value the change card shows for `mode`, using the threshold scan.
   */
  method WeightChangeMetric(ws: seq<Entry>, mode: string) returns (card: ChangeCard)
    ensures ws == [] ==> card == ChangeCard("Total Change", "Since Start", NoEntries)
    ensures ws != [] && mode == "total" ==>
      card == ChangeCard("Total Change", "Since Start", Amount(ws[|ws| - 1].weight - ws[0].weight))
    ensures ws != [] && (mode == "7days" || mode == "30days") ==>
      var days := if mode == "7days" then 7 else 30;
      && card.title == (if mode == "7days" then "7 Day Change" else "30 Day Change")
      && card.subtitle == (if mode == "7days" then "Last 7 Days" else "Last 30 Days")
      && card.value == match ThresholdWeight(ws, days)
           case None => NotEnoughData
           case Some(past) => Amount(ws[|ws| - 1].weight - past)
    ensures ws != [] && mode !in Modes ==> card == ChangeCard("", "", Amount(0.0))
  {
    if |ws| == 0 {
      return ChangeCard("Total Change", "Since Start", NoEntries);
    }
    var latestWeight := ws[|ws| - 1].weight;
    var firstWeight := ws[0].weight;
    var change := 0.0;
    var title := "";
    var subtitle := "";
    if mode == "total" {
      change := latestWeight - firstWeight;
      title, subtitle := "Total Change", "Since Start";
    } else if mode == "7days" {
      var pastWeight := ClosestWeight(ws, 7);
      if pastWeight.None? {
        return ChangeCard("7 Day Change", "Last 7 Days", NotEnoughData);
      }
      change := latestWeight - pastWeight.value;
      title, subtitle := "7 Day Change", "Last 7 Days";
    } else if mode == "30days" {
      var pastWeight := ClosestWeight(ws, 30);
      if pastWeight.None? {
        return ChangeCard("30 Day Change", "Last 30 Days", NotEnoughData);
      }
      change := latestWeight - pastWeight.value;
      title, subtitle := "30 Day Change", "Last 30 Days";
    }
    card := ChangeCard(title, subtitle, Amount(change));
  }

  /**
   * 80 kg, then 78 kg nine days later: the 7-day window compares against
   * the 80 kg entry, so the change card shows -2 kg.
   */
  lemma ThresholdExample()
    ensures ThresholdWeight([Entry(1, 19723, 80.0), Entry(2, 19732, 78.0)], 7) == Some(80.0)
    ensures var ws := [Entry(1, 19723, 80.0), Entry(2, 19732, 78.0)];
      ws[|ws| - 1].weight - ThresholdWeight(ws, 7).value == -2.0
  {
  }
}
