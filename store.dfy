/**
 * The tracker's entry store: the `weights` array with the form's edit target,
 * and the handlers that change them (load, start and cancel an edit, submit
 * the form, delete an entry). After every change the store is sorted by date.
 */
module Store {
  import opened Options
  import opened Entries

  /** The persisted entry list as the loader finds it. */
  datatype Stored =
    | Missing             // no value under the key (or an empty string)
    | Unreadable          // the value is not valid JSON
    | NotAList            // valid JSON, but not an array
    | Loaded(list: seq<Entry>)

  /** Which path a form submission took. */
  datatype SubmitOutcome =
    | Ignored             // the weight was zero or the date empty: nothing happens
    | Edited              // the form was editing an entry
    | Overwritten         // the date was taken and the user confirmed the overwrite
    | Declined            // the date was taken and the user declined
    | Added               // a new entry was pushed

  class WeightTracker {
    /** All entries, oldest first. */
    var weights: seq<Entry>
    /** The id of the entry the form is editing, if any. */
    var editingId: Option<Id>

    ghost predicate Valid()
      reads this
    {
      SortedByDate(weights)
    }

    /** The entry being edited is in the store; the handlers never break this. */
    ghost predicate EditTargetPresent()
      reads this
    {
      editingId.Some? ==> HasId(weights, editingId.value)
    }

    /** Start-up loading of the persisted list: missing data leaves the store empty, malformed data resets it. */
    constructor (stored: Stored)
      ensures Valid() && EditTargetPresent()
      ensures editingId == None
      ensures weights == match stored
        case Loaded(list) => SortByDate(list)
        case _ => []
    {
      editingId := None;
      weights := [];
      match stored {
        case Missing =>
        case Unreadable =>
          weights := [];
        case NotAList =>
          weights := SortByDate([]);
        case Loaded(list) =>
          weights := SortByDate(list);
      }
    }

    /** The edit button: the form edits `id` when an entry has it. */
    method StartEdit(id: Id)
      modifies this`editingId
      ensures editingId == if HasId(weights, id) then Some(id) else old(editingId)
      ensures old(EditTargetPresent()) ==> EditTargetPresent()
    {
      var index := IndexOfId(weights, id);
      if index.Some? {
        editingId := Some(id);
      }
    }

    /** Clearing the form (cancel, close, open for adding) ends any edit. */
    method ResetForm()
      modifies this`editingId
      ensures editingId == None
      ensures EditTargetPresent()
    {
      editingId := None;
    }

    /** The delete button: after the user confirms, every entry with `id` is filtered out. */
    method Delete(id: Id, confirmed: bool)
      requires Valid()
      modifies this
      ensures Valid()
      ensures weights == if confirmed then WithoutId(old(weights), id) else old(weights)
      ensures editingId == if confirmed && old(editingId) == Some(id) then None else old(editingId)
      ensures old(EditTargetPresent()) ==> EditTargetPresent()
    {
      if confirmed {
        WithoutIdKeepsSorted(weights, id);
        if editingId.Some? && editingId.value != id && HasId(weights, editingId.value) {
          WithoutIdKeepsOtherIds(weights, id, editingId.value);
        }
        weights := WithoutId(weights, id);
        if editingId == Some(id) {
          editingId := None;
        }
      }
    }

    /**
     * The form's submit handler. `confirmed` is the user's answer to the
     * overwrite prompt and `freshId` the id a new entry gets.
     */
    method Submit(weightVal: real, dateVal: Option<Date>, confirmed: bool, freshId: Id)
      returns (outcome: SubmitOutcome)
      requires Valid()
      requires !HasId(weights, freshId)
      modifies this
      ensures Valid()
      ensures old(EditTargetPresent()) ==> EditTargetPresent()
      ensures outcome == Ignored <==> weightVal == 0.0 || dateVal.None?
      ensures outcome == Ignored ==> weights == old(weights) && editingId == old(editingId)
      ensures outcome == Edited <==> outcome != Ignored && old(editingId).Some?
      ensures outcome == Edited ==>
        editingId == None &&
        weights == SortByDate(Updated(old(weights), old(editingId).value, dateVal.value, weightVal))
      ensures outcome == Edited && !HasId(old(weights), old(editingId).value) ==> weights == old(weights)
      ensures outcome in {Overwritten, Declined} <==>
        outcome != Ignored && old(editingId).None? && IndexOfDate(old(weights), dateVal.value).Some?
      ensures outcome == Overwritten <==> outcome in {Overwritten, Declined} && confirmed
      ensures outcome == Overwritten ==>
        var i := IndexOfDate(old(weights), dateVal.value).value;
        weights == old(weights)[i := old(weights)[i].(weight := weightVal)]
      ensures outcome == Declined ==> weights == old(weights)
      ensures outcome == Added ==>
        var x := Entry(freshId, dateVal.value, weightVal);
        var k := InsertionPoint(old(weights), x);
        weights == SortByDate(old(weights) + [x]) &&
        weights == old(weights)[..k] + [x] + old(weights)[k..]
      ensures outcome != Edited ==> editingId == old(editingId)
    {
      if weightVal == 0.0 || dateVal.None? {
        return Ignored;
      }
      var date := dateVal.value;
      if editingId.Some? {
        var id := editingId.value;
        var index := IndexOfId(weights, id);
        if index.Some? {
          weights := weights[index.value := Entry(id, date, weightVal)];
        } else {
          SortSortedIsIdentity(weights);
        }
        editingId := None;
        outcome := Edited;
      } else {
        var existing := IndexOfDate(weights, date);
        if existing.Some? {
          if confirmed {
            SortAfterWeightChange(weights, existing.value, weightVal);
            weights := weights[existing.value := weights[existing.value].(weight := weightVal)];
            outcome := Overwritten;
          } else {
            return Declined;
          }
        } else {
          SortAfterPush(weights, Entry(freshId, date, weightVal));
          weights := weights + [Entry(freshId, date, weightVal)];
          outcome := Added;
        }
      }
      weights := SortByDate(weights);
    }
  }

  /** Deleting one id keeps every entry that has another id. */
  lemma WithoutIdKeepsOtherIds(s: seq<Entry>, id: Id, other: Id)
    requires other != id && HasId(s, other)
    ensures HasId(WithoutId(s, id), other)
  {
    var i :| 0 <= i < |s| && s[i].id == other;
    WithoutIdCounts(s, id);
    assert s[i] in multiset(s);
    assert s[i] in multiset(WithoutId(s, id));
    var r := WithoutId(s, id);
    var j :| 0 <= j < |r| && r[j] == s[i];
  }
}
