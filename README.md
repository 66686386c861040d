# Weight tracker: entry store and metrics, in Dafny

This project models the logic of a single-page weight tracker
(`app.js`). It covers four parts:

- **Entry store.** The user keeps a list of `{id, date, weight}` entries, always sorted by date, oldest entry first. A form adds entries, overwrites the entry for a date that is already taken, and edits an entry found by its id. A delete button filters entries out by id.
- **Comparison windows.** There are two different ways to pick the weight that "change" is measured against:
  - a threshold scan (`getClosestWeight`) goes back from the latest entry and takes the first entry that is at least N days older;
  - a nearest-date scan (`findClosestEntry` inside `computeMetrics`) picks the entry whose date is nearest a target instant.
- **Metrics.** `computeMetrics` derives the following from the entries, the height and the goal:
  - current and start weight;
  - the change;
  - BMI and its four-way category;
  - goal progress (reached, to lose, to gain);
  - target BMI.
  
  The change card (`updateWeightChangeMetric`) shows a total, 7-day or 30-day change. The mode button cycles through those three modes.
- **Chart labels.** `formatDate` turns `YYYY-MM-DD` into `M/D`.

Modelling choices:

- Dates are integer day numbers. An ISO date string parses to UTC midnight, so the difference between two stored dates is a whole number of days.
- The "now" of `computeMetrics` is a `today: real` parameter: a day number, with the time of day as the fraction.
- Weights and heights are exact `real`s.
- `confirm()` answers are boolean parameters.
- A new entry's `Date.now()` id is a `freshId` parameter. It is required not to be in the store already.
- JavaScript's stable `Array.prototype.sort` with a date comparator is modelled as `Entries.SortByDate`. This is a stable insertion sort: an entry goes after every entry with an equal date.

Modules:

- `Options` (`entries.dfy`) holds `Option`, which stands for JavaScript's `null`/`undefined`.
- `Entries` (`entries.dfy`) holds:
  - the entry record;
  - the sort, with its sortedness and permutation properties;
  - `findIndex` as `FirstIndex`;
  - the edit update;
  - the delete filter.
- `Store` (`store.dfy`) is the class `WeightTracker` with the fields `weights` and `editingId`. Its constructor and methods are the loader and the event handlers.
- `Metrics` (`metrics.dfy`) holds:
  - the two scans: the methods with their loops, each proved against a recursive specification function;
  - BMI and its category;
  - goal progress;
  - the `computeMetrics` record, filled field by field by the method `ComputeMetrics` and specified by the function `MetricsOf`;
  - the change card;
  - the mode cycle.
- `DateLabels` (`date_labels.dfy`) holds:
  - `split`;
  - `parseInt` (leading decimal digits, otherwise NaN);
  - decimal rendering;
  - `padStart(2, '0')`;
  - `formatDate`.

## Model

| member | source | states |
|---|---|---|
| Entries.InsertionPoint | app.js:586 | The stable sort puts a new entry after every entry with a date at or before its own, and before the first entry with a later date. |
| Entries.InsertByDate | app.js:586 | Inserting an entry splices it in at its insertion point and leaves everything else in place. |
| Entries.InsertByDatePermutation | app.js:586 | Inserting adds exactly the one entry to the multiset. |
| Entries.InsertByDateSorted | app.js:586 | Inserting one entry into a date-sorted list keeps it sorted. |
| Entries.SortByDate | app.js:173 | The comparator sort yields a list sorted by date ascending that is a permutation of its input. |
| Entries.InsertAtEnd | app.js:575-586 | An entry no earlier than all others lands at the end. |
| Entries.SortSortedIsIdentity | app.js:586 | Sorting an already sorted list changes nothing, because the sort is stable. |
| Entries.SortByDateStable | app.js:173 | The sort is stable: for every date, the entries on that date appear in the same order before and after sorting. The same sort runs at app.js:586. |
| Entries.InsertByDateOnDate | app.js:586 | Inserting into a sorted list puts the new entry after every entry with the same date. |
| Entries.SortAfterPush | app.js:575-586 | Pushing onto a sorted store and sorting equals splicing the entry in at its insertion point. |
| Entries.SortAfterWeightChange | app.js:570-586 | Overwriting one entry's weight in a sorted store leaves it sorted, so the sort that follows changes nothing. |
| Entries.FirstIndex | app.js:558 | `findIndex` returns the first index whose entry satisfies the predicate; none is returned only when no entry satisfies it. |
| Entries.IndexOfId | app.js:558 | `findIndex` by id returns the first position of an entry with the id, or -1 (None) exactly when no entry has it. |
| Entries.IndexOfDate | app.js:568 | `findIndex` by date returns the first position of an entry on that date, or -1 (None) exactly when no entry is on that date. |
| Entries.Updated | app.js:556-562 | Editing by id changes only the first entry with that id, setting its date and weight while keeping its id; the length is kept, and with an absent id the multiset is unchanged. |
| Entries.WithoutId | app.js:279 | The delete filter leaves no entry with the id, keeps only entries of the input, and never grows the list. |
| Entries.WithoutIdCounts | app.js:279 | The filter removes every entry with the id and keeps each other entry exactly as often as it occurred. |
| Entries.WithoutIdAppend | app.js:279 | The filter distributes over concatenation. |
| Entries.KeptPositions | app.js:279 | The filtered list is the original read at strictly increasing positions, so relative order is kept. |
| Entries.KeptPositionsExact | app.js:279 | A position is kept exactly when its entry does not carry the deleted id. |
| Entries.WithoutAbsentId | app.js:279 | Deleting an id no entry has changes nothing. |
| Entries.WithoutIdKeepsSorted | app.js:279 | Deleting keeps the store sorted by date. |
| Entries.WithoutSplicedEntry | app.js:279 | Deleting the id of an entry spliced among entries without it leaves exactly the surrounding entries. |
| Entries.WithoutInserted | app.js:279 | Deleting an inserted entry's unique id removes exactly that entry. |
| Entries.AddThenDeleteRestores | app.js:575-586 | Adding an entry with a fresh id to a sorted store and then deleting that id gives back the original store. |
| Store.WeightTracker.constructor | app.js:166-178 | The loader leaves the store empty for missing, unreadable or non-list data, and otherwise sorts the stored list; the store is sorted and no edit is active. |
| Store.WeightTracker.StartEdit | app.js:245-251 | The edit button makes the form edit the given id only when an entry has it. |
| Store.WeightTracker.ResetForm | app.js:268-269 | Resetting the form ends any edit. |
| Store.WeightTracker.Delete | app.js:277-289 | A confirmed delete replaces the store with the filtered list and ends the edit of the deleted id; a declined one changes nothing; the store stays sorted. |
| Store.WeightTracker.Submit | app.js:548-594 | Zero weight or no date is ignored. An edit replaces the target's date and weight, then sorts. A taken date is overwritten in place only when the user confirms; a declined overwrite changes nothing. Otherwise the new entry is spliced in by date. The store stays sorted in every path. |
| Store.WithoutIdKeepsOtherIds | app.js:279-284 | Deleting one id keeps every other id present, so an edit of another entry stays valid. |
| Metrics.LastOlderIndex | app.js:19-33 | The specification of the threshold scan: the largest index below n whose entry is at least the given number of days before the anchor, or none when no entry is old enough. |
| Metrics.ThresholdWeight | app.js:19-33 | What `getClosestWeight` returns. It is null exactly when the store is empty or no entry is old enough; otherwise it is the weight of an entry at least that many days older than the latest entry, and every later entry is less than that many days older. |
| Metrics.ClosestWeight | app.js:19-33 | The backward scan returns the weight at that largest qualifying index. It returns null exactly when the store is empty or no entry is old enough; it never falls back to the oldest entry. |
| Metrics.ThresholdExample | app.js:19-33 | For 80 kg followed by 78 kg nine days later, the 7-day window compares against 80 kg, so the change is -2 kg. |
| Metrics.Distance | app.js:625-626 | The distance from an entry's date to the target is non-negative and equals one of the two signed differences. |
| Metrics.NearestIndex | app.js:621-633 | The nearest-date scan ends on an index whose distance is minimal over all entries and strictly smaller than that of every earlier entry, so the first minimiser wins. |
| Metrics.NearestBelow | app.js:621-633 | After the scan has looked at the first n entries, its choice has minimal distance among them and is strictly nearer than every earlier entry. |
| Metrics.ClosestEntry | app.js:621-633 | The forward loop returns the entry at that index. |
| Metrics.Bmi | app.js:342-343 | The BMI times the squared height in metres (cm / 100) is the weight, so BMI is weight divided by that square. The same formula gives the BMI at app.js:651-652 and the target BMI at app.js:676-677. |
| Metrics.CategoryOf | app.js:655-658 | The if/else chain picks a category whose band holds the BMI, and it is the only such category: the four bands partition the reals. |
| Metrics.BmiCategory.NamesDistinct | app.js:655-658 | The four category texts ("Underweight", "Normal weight", "Overweight", "Obese") are pairwise different, so the shown text identifies the category. |
| Metrics.CategoryMonotone | app.js:348-351 | A higher BMI never falls in a lower category. |
| Metrics.BoundaryIsNormalWeight | app.js:348-351 | 53.465 kg at 170 cm is a BMI of exactly 18.5, which is normal weight. |
| Metrics.GoalProgressOf | app.js:664-673 | Goal progress is reached exactly when current equals goal, to lose exactly when current is greater, and to gain exactly when it is smaller; the amount is the absolute difference. |
| Metrics.GoalProgressRoundTrip | app.js:664-673 | The goal plus the signed remaining amount the message states gives back the current weight. |
| Metrics.CompareWeight | app.js:619-645 | The comparison weight is the first entry's weight unless the mode is week or month. In those modes it is the weight of the entry at `NearestIndex`: the first entry whose date is nearest to seven or thirty days before today. |
| Metrics.MetricsOf | app.js:597-683 | The record `computeMetrics` returns. It has no current weight exactly when the input is missing or empty, and is then the default record. Otherwise the current weight is the last entry's. `MetricsMeaning` gives the remaining fields. |
| Metrics.MetricsMeaning | app.js:597-683 | Empty or non-list input gives the default record. Otherwise current is the last weight and start the first, and the compare weight is start unless the mode is week or month, when it is the nearest entry to seven or thirty days before today. The change is current minus compare. BMI and category are present exactly when the height is set, and the category covers the BMI. Goal progress and display are present exactly when the goal is set. Progress then reads reached, to lose or to gain according to the sign of current minus goal (`GoalProgressOf`), and the goal plus the signed amount is the current weight. Target BMI is present exactly when both are set, and is the goal's BMI. |
| Metrics.ComputeMetrics | app.js:597-683 | The method that fills the record field by field, with its loops, returns exactly that record. |
| Metrics.AtGoalTargetIsCurrentBmi | app.js:662-679 | At the goal weight progress reads reached and the target BMI equals the current BMI. |
| Metrics.WeightChangeMetric | app.js:35-80 | The change card shows "--" for an empty store. Total mode shows latest minus first. The 7-day and 30-day modes show latest minus the threshold-scan weight, or "Not enough data" when there is none, each with its own label and subtitle. |
| Metrics.NextModeIndex | app.js:436 | One click keeps the mode index in range. |
| Metrics.ModeAfterClicks | app.js:436 | Any number of clicks keeps the mode index in range. |
| Metrics.ModeCycle | app.js:436 | After k clicks from mode i the index is (i + k) mod 3. |
| Metrics.ModeCycleReturns | app.js:436 | Three more clicks return to the same mode. |
| DateLabels.Split | app.js:447 | Splitting yields at least one part; no part contains the separator; joining the parts with it gives back the string. |
| DateLabels.SplitJoin | app.js:447 | Splitting undoes joining parts without the separator. |
| DateLabels.SplitThree | app.js:447 | Three digit runs joined by '-' split into exactly those three parts. |
| DateLabels.LeadingDigits | app.js:448 | The digit run `parseInt` reads is the longest all-digit prefix. |
| DateLabels.ParseInt | app.js:448 | `parseInt` is NaN exactly for `undefined`, an empty string or a string not starting with a digit; otherwise it is the value of the leading digits. |
| DateLabels.ShowNat | app.js:448 | A number renders as at least one digit with no leading zero. |
| DateLabels.ShowNatValue | app.js:448 | Reading a rendered number back gives the number. |
| DateLabels.LeadingZeroValue | app.js:448 | A leading zero does not change the value. |
| DateLabels.Render | app.js:448 | `${parseInt(...)}` is never empty and contains no '/' or '-'. Reading it back with `parseInt` gives the same result, NaN included. |
| DateLabels.Pad2 | app.js:160-161 | Padding gives at least two digits. |
| DateLabels.ParsePad2 | app.js:160-161 | A padded month or day parses back to the number. |
| DateLabels.FormatDate | app.js:444-449 | The label is empty exactly when the date string is; for any other string it holds exactly one '/', between the month text and the day text. |
| DateLabels.FormatFields | app.js:444-449 | For any date string, given as the fields it is made of, the label is the second field read with `parseInt`, a slash, and the third field read with `parseInt`. A missing or digitless field shows as NaN. |
| DateLabels.FormatYearOnly | app.js:444-449 | A non-empty string without '-' labels as "NaN/NaN", since `parts[1]` and `parts[2]` are undefined. |
| DateLabels.FormatWithoutDay | app.js:444-449 | A year and a padded month with no day label as the month, a slash and NaN. |
| DateLabels.SplitTwo | app.js:447 | A separator-free part and a digit run joined by '-' split into exactly those two parts. |
| DateLabels.FormatIsoDate | app.js:158-162 | A date written as the form writes it (year-MM-DD) becomes month/day with the padding removed. |

## Left out

- DOM reads and writes, modals, event-listener wiring and `requestAnimationFrame` are presentation and are not modelled. All colours are in this group.
- `localStorage` and `JSON.parse`/`stringify` are persistence I/O. The loader's four possible outcomes are the `Stored` parameter of the constructor. `saveData`, `saveHeight` and `saveGoal` are not modelled.
- Chart.js setup and `updateChart`'s width and scroll handling are not modelled: they are a foreign library and layout.
- `toFixed(1)` rendering, `parseFloat`, NaN weights and IEEE float rounding are not modelled. Weights and BMI are exact reals, so the texts of `computeMetrics` are kept as the values they are built from (`BmiCategory`, `GoalProgress`, the target BMI).
- Metrics.ComputeMetrics: "now" is the parameter `today`. The source's local-time `setDate(getDate() - 7)` is modelled as subtracting 7 (or 30) days, so daylight-saving shifts are not modelled.
- Store.WeightTracker.Submit: `!weightVal` is modelled as a zero weight (NaN is not modelled), and an empty date input as `None`. The `Date.now()` id is the `freshId` parameter. Clearing the weight input and closing the modal are left out.
- `runSilentTest` is not modelled. It only passes globals to `computeMetrics`.
- `updateMetrics` applies the same current, start, BMI, category, goal-progress and target-BMI rules as `computeMetrics` when the store is not empty, writing the results to the page as it goes. It is not modelled separately, and it differs from `Metrics.MetricsOf` in what it shows when a value is missing:
  - With an empty store it still shows a set goal (`userGoal` is tested only for truthiness) and shows "No Data" for the BMI category and goal progress (app.js:323-331). `computeMetrics` returns a null goal display and empty texts (app.js:598-612).
  - Without a height it shows "Set Height" (app.js:355-358), and without a goal it shows "Set Goal" (app.js:386-390). `computeMetrics` leaves those texts empty.
- `renderHistory` is not modelled. Its newest-first copy of the list is display only.
- DateLabels.ParseInt: leading whitespace, a sign, and the `0x` hexadecimal prefix that `parseInt` accepts are not modelled. Stored dates are digit runs separated by '-'.
- Entries.SortByDate relies on the language's `sort` being stable, which it is since ECMAScript 2019. `Entries.SortByDateStable` proves that the model's sort is stable.
- Stored dates are kept as day numbers in the store. `DateLabels` works on the date strings themselves, and the model does not convert between the two.
- The source's two sets of mode names (`'7days'`/`'30days'` for the change card, `'week'`/`'month'` for `computeMetrics`) are kept as they are: each function uses its own names.
