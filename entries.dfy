/** Optional values: the model's stand-in for JavaScript's `null`. */
module Options {
  datatype Option<+T> = None | Some(value: T)
}

/**
 * Weight entries and the pure sequence operations the entry store is built
 * from: the date-ascending sort, look-up of the first matching entry, the
 * in-place update of one entry and the filter that deletes by id.
 */
module Entries {
  import opened Options

  /** A calendar date as a day number; `YYYY-MM-DD` strings parse to UTC midnight, so day differences are whole. */
  type Date = int

  /** An entry's identifier (the source uses the decimal string of a millisecond timestamp). */
  type Id = nat

  datatype Entry = Entry(id: Id, date: Date, weight: real)

  /** The store's invariant: entries in ascending date order. */
  predicate SortedByDate(s: seq<Entry>) {
    forall i, j :: 0 <= i < j < |s| ==> s[i].date <= s[j].date
  }

  predicate HasId(s: seq<Entry>, id: Id) {
    exists i :: 0 <= i < |s| && s[i].id == id
  }

  // ---------------------------------------------------------------------
  // Sorting by date
  // ---------------------------------------------------------------------

  /** Number of leading entries of `s` that `InsertByDate` places before `x`. */
  function InsertionPoint(s: seq<Entry>, x: Entry): (k: nat)
    ensures k <= |s|
    ensures forall i :: 0 <= i < k ==> s[i].date <= x.date
    ensures k < |s| ==> x.date < s[k].date
  {
    if s == [] || x.date < s[0].date then 0 else 1 + InsertionPoint(s[1..], x)
  }

  /**
   * One step of a stable sort: `x` goes after every entry dated on or before
   * it, so entries with equal dates keep their relative order.
   */
  function InsertByDate(s: seq<Entry>, x: Entry): (r: seq<Entry>)
    ensures r == s[..InsertionPoint(s, x)] + [x] + s[InsertionPoint(s, x)..]
  {
    if s == [] || x.date < s[0].date then
      assert s[..0] == [] && s[0..] == s;
      [x] + s
    else
      ghost var k := InsertionPoint(s[1..], x);
      assert InsertionPoint(s, x) == k + 1;
      ConsSplice(s[0], s[1..], k, x);
      assert [s[0]] + s[1..] == s;
      [s[0]] + InsertByDate(s[1..], x)
  }

  lemma ConsSplice(h: Entry, t: seq<Entry>, k: nat, x: Entry)
    requires k <= |t|
    ensures [h] + (t[..k] + [x] + t[k..]) == ([h] + t)[..k + 1] + [x] + ([h] + t)[k + 1..]
  {
    assert ([h] + t)[..k + 1] == [h] + t[..k];
    assert ([h] + t)[k + 1..] == t[k..];
  }

  /** Inserting adds exactly `x`. */
  lemma {:induction false} InsertByDatePermutation(s: seq<Entry>, x: Entry)
    ensures multiset(InsertByDate(s, x)) == multiset(s) + multiset{x}
  {
    var k := InsertionPoint(s, x);
    assert s == s[..k] + s[k..];
  }

  /** Inserting keeps a sorted sequence sorted. */
  lemma {:induction false} InsertByDateSorted(s: seq<Entry>, x: Entry)
    requires SortedByDate(s)
    ensures SortedByDate(InsertByDate(s, x))
  {
    if s == [] || x.date < s[0].date {
      if s != [] {
        SortedHeadIsLeast(s);
      }
      SortedCons(x, s);
    } else {
      SortedTail(s);
      InsertByDateSorted(s[1..], x);
      InsertedTailAbove(s, x);
      SortedCons(s[0], InsertByDate(s[1..], x));
    }
  }

  /** The first entry of a sorted sequence is dated no later than any entry. */
  lemma SortedHeadIsLeast(s: seq<Entry>)
    requires SortedByDate(s) && s != []
    ensures forall e :: e in s ==> s[0].date <= e.date
  {
    forall e | e in s ensures s[0].date <= e.date {
      var i :| 0 <= i < |s| && s[i] == e;
      assert s[0].date <= s[i].date;
    }
  }

  lemma SortedTail(s: seq<Entry>)
    requires SortedByDate(s) && s != []
    ensures SortedByDate(s[1..])
  {
    forall i, j | 0 <= i < j < |s[1..]| ensures s[1..][i].date <= s[1..][j].date {
      assert s[1..][i] == s[i + 1] && s[1..][j] == s[j + 1];
    }
  }

  /** When `x` goes after the head, everything after the head is dated no earlier than it. */
  lemma InsertedTailAbove(s: seq<Entry>, x: Entry)
    requires SortedByDate(s) && s != [] && s[0].date <= x.date
    ensures forall e :: e in InsertByDate(s[1..], x) ==> s[0].date <= e.date
  {
    var tail := InsertByDate(s[1..], x);
    InsertByDatePermutation(s[1..], x);
    SortedHeadIsLeast(s);
    forall e | e in tail ensures s[0].date <= e.date {
      assert e in multiset(tail);
      assert e == x || e in multiset(s[1..]);
    }
  }

  /**
   * The comparator sort `(a, b) => new Date(a.date) - new Date(b.date)`:
   * a stable sort by date, written as insertion of each entry in turn.
   */
  function SortByDate(s: seq<Entry>): (r: seq<Entry>)
    ensures SortedByDate(r)
    ensures multiset(r) == multiset(s)
  {
    if s == [] then []
    else
      assert s == s[..|s| - 1] + [s[|s| - 1]];
      InsertByDatePermutation(SortByDate(s[..|s| - 1]), s[|s| - 1]);
      InsertByDateSorted(SortByDate(s[..|s| - 1]), s[|s| - 1]);
      InsertByDate(SortByDate(s[..|s| - 1]), s[|s| - 1])
  }

  /** The entries of `s` dated `d`, in their order in `s`. */
  function OnDate(s: seq<Entry>, d: Date): (r: seq<Entry>)
    ensures forall i :: 0 <= i < |r| ==> r[i].date == d
  {
    if s == [] then []
    else if s[0].date == d then [s[0]] + OnDate(s[1..], d)
    else OnDate(s[1..], d)
  }

  lemma {:induction false} OnDateAppend(a: seq<Entry>, b: seq<Entry>, d: Date)
    ensures OnDate(a + b, d) == OnDate(a, d) + OnDate(b, d)
  {
    if a != [] {
      assert (a + b)[1..] == a[1..] + b;
      OnDateAppend(a[1..], b, d);
    } else {
      assert a + b == b;
    }
  }

  /** No entry of a sequence dated after `d` is on `d`. */
  lemma {:induction false} OnDateAllLater(s: seq<Entry>, d: Date)
    requires forall i :: 0 <= i < |s| ==> d < s[i].date
    ensures OnDate(s, d) == []
  {
    if s != [] {
      OnDateAllLater(s[1..], d);
    }
  }

  /** Inserting into a sorted sequence puts `x` after every entry with the same date. */
  lemma InsertByDateOnDate(s: seq<Entry>, x: Entry, d: Date)
    requires SortedByDate(s)
    ensures OnDate(InsertByDate(s, x), d) == OnDate(s, d) + (if x.date == d then [x] else [])
  {
    var k := InsertionPoint(s, x);
    var pre, post := s[..k], s[k..];
    var added: seq<Entry> := if x.date == d then [x] else [];
    if x.date == d {
      AfterInsertionPoint(s, x);
      OnDateAllLater(post, d);
    }
    assert OnDate(pre, d) + added + OnDate(post, d) == OnDate(pre, d) + OnDate(post, d) + added;
    calc {
      OnDate(InsertByDate(s, x), d);
      OnDate(pre + [x] + post, d);
      { OnDateSplice(pre, x, post, d); }
      OnDate(pre, d) + added + OnDate(post, d);
      OnDate(pre, d) + OnDate(post, d) + added;
      { OnDateSplit(s, k, d); }
      OnDate(s, d) + added;
    }
  }

  lemma OnDateSplit(s: seq<Entry>, k: nat, d: Date)
    requires k <= |s|
    ensures OnDate(s, d) == OnDate(s[..k], d) + OnDate(s[k..], d)
  {
    assert s == s[..k] + s[k..];
    OnDateAppend(s[..k], s[k..], d);
  }

  lemma OnDateSplice(pre: seq<Entry>, x: Entry, post: seq<Entry>, d: Date)
    ensures OnDate(pre + [x] + post, d) == OnDate(pre, d) + (if x.date == d then [x] else []) + OnDate(post, d)
  {
    OnDateAppend(pre + [x], post, d);
    OnDateAppend(pre, [x], d);
    OnDateCons(x, [], d);
    assert [x] + [] == [x];
  }

  /** In a sorted sequence everything from the insertion point on is dated after `x`. */
  lemma AfterInsertionPoint(s: seq<Entry>, x: Entry)
    requires SortedByDate(s)
    ensures forall i :: 0 <= i < |s[InsertionPoint(s, x)..]| ==> x.date < s[InsertionPoint(s, x)..][i].date
  {
    var k := InsertionPoint(s, x);
    forall i | 0 <= i < |s[k..]| ensures x.date < s[k..][i].date {
      assert s[k..][i] == s[k + i];
      assert s[k].date <= s[k + i].date;
    }
  }

  lemma OnDateCons(x: Entry, t: seq<Entry>, d: Date)
    ensures OnDate([x] + t, d) == (if x.date == d then [x] else []) + OnDate(t, d)
  {
    assert ([x] + t)[1..] == t;
  }

  lemma SortByDateStep(s: seq<Entry>)
    requires s != []
    ensures SortByDate(s) == InsertByDate(SortByDate(s[..|s| - 1]), s[|s| - 1])
  {
  }

  lemma OnDateLast(s: seq<Entry>, d: Date)
    requires s != []
    ensures OnDate(s, d) == OnDate(s[..|s| - 1], d) + (if s[|s| - 1].date == d then [s[|s| - 1]] else [])
  {
    assert s == s[..|s| - 1] + [s[|s| - 1]];
    OnDateAppend(s[..|s| - 1], [s[|s| - 1]], d);
    assert [s[|s| - 1]][1..] == [];
  }

  /** The sort is stable: for every date, the entries on it keep their relative order. */
  lemma {:induction false} SortByDateStable(s: seq<Entry>, d: Date)
    ensures OnDate(SortByDate(s), d) == OnDate(s, d)
  {
    if s != [] {
      var init, last := s[..|s| - 1], s[|s| - 1];
      calc {
        OnDate(SortByDate(s), d);
        { SortByDateStep(s); }
        OnDate(InsertByDate(SortByDate(init), last), d);
        { InsertByDateOnDate(SortByDate(init), last, d); }
        OnDate(SortByDate(init), d) + (if last.date == d then [last] else []);
        { SortByDateStable(init, d); }
        OnDate(init, d) + (if last.date == d then [last] else []);
        { OnDateLast(s, d); }
        OnDate(s, d);
      }
    }
  }

  /** An entry dated on or after everything in a sorted sequence is inserted at its end. */
  lemma {:induction false} InsertAtEnd(s: seq<Entry>, x: Entry)
    requires forall i :: 0 <= i < |s| ==> s[i].date <= x.date
    ensures InsertByDate(s, x) == s + [x]
  {
    if s != [] {
      InsertAtEnd(s[1..], x);
      assert s == [s[0]] + s[1..];
    }
  }

  /** Sorting an already sorted sequence changes nothing (the sort is stable). */
  lemma {:induction false} SortSortedIsIdentity(s: seq<Entry>)
    requires SortedByDate(s)
    ensures SortByDate(s) == s
  {
    if s != [] {
      var init := s[..|s| - 1];
      assert SortedByDate(init);
      SortSortedIsIdentity(init);
      InsertAtEnd(init, s[|s| - 1]);
      assert init + [s[|s| - 1]] == s;
    }
  }

  /** Pushing onto a sorted store and sorting inserts the new entry at its place and moves nothing else. */
  lemma SortAfterPush(s: seq<Entry>, x: Entry)
    requires SortedByDate(s)
    ensures SortByDate(s + [x]) == InsertByDate(s, x)
    ensures SortByDate(s + [x]) == s[..InsertionPoint(s, x)] + [x] + s[InsertionPoint(s, x)..]
  {
    assert (s + [x])[..|s|] == s;
    SortSortedIsIdentity(s);
  }

  /** Changing only the weight of one entry of a sorted store keeps it sorted, so the sort that follows is a no-op. */
  lemma SortAfterWeightChange(s: seq<Entry>, i: nat, w: real)
    requires SortedByDate(s) && i < |s|
    ensures SortByDate(s[i := s[i].(weight := w)]) == s[i := s[i].(weight := w)]
  {
    var t := s[i := s[i].(weight := w)];
    assert SortedByDate(t);
    SortSortedIsIdentity(t);
  }

  // ---------------------------------------------------------------------
  // Look-up, update and delete
  // ---------------------------------------------------------------------

  /** `Array.prototype.findIndex`: the first index whose entry satisfies `p`, or `None` for -1. */
  function FirstIndex(s: seq<Entry>, p: Entry -> bool): (r: Option<nat>)
    ensures r.Some? ==> r.value < |s| && p(s[r.value])
    ensures r.Some? ==> forall j :: 0 <= j < r.value ==> !p(s[j])
    ensures r.None? ==> forall j :: 0 <= j < |s| ==> !p(s[j])
  {
    if s == [] then None
    else if p(s[0]) then Some(0)
    else match FirstIndex(s[1..], p)
      case None => None
      case Some(k) => Some(k + 1)
  }

  /** `weights.findIndex(w => w.id === id)`: the position of the first entry with `id`. */
  function IndexOfId(s: seq<Entry>, id: Id): (r: Option<nat>)
    ensures r.None? <==> !HasId(s, id)
    ensures r.Some? ==> r.value < |s| && s[r.value].id == id
    ensures r.Some? ==> forall j :: 0 <= j < r.value ==> s[j].id != id
  {
    FirstIndex(s, (e: Entry) => e.id == id)
  }

  /** `weights.findIndex(w => w.date === dateVal)`: the position of the first entry on `date`. */
  function IndexOfDate(s: seq<Entry>, date: Date): (r: Option<nat>)
    ensures r.None? <==> forall j :: 0 <= j < |s| ==> s[j].date != date
    ensures r.Some? ==> r.value < |s| && s[r.value].date == date
    ensures r.Some? ==> forall j :: 0 <= j < r.value ==> s[j].date != date
  {
    FirstIndex(s, (e: Entry) => e.date == date)
  }

  /** The edit branch before its sort: the first entry with `id` gets the new date and weight. */
  function Updated(s: seq<Entry>, id: Id, date: Date, weight: real): (r: seq<Entry>)
    ensures |r| == |s|
    ensures IndexOfId(s, id).None? ==> multiset(r) == multiset(s)
    ensures IndexOfId(s, id).Some? ==>
      var i := IndexOfId(s, id).value;
      r[i] == Entry(id, date, weight) &&
      (forall j :: 0 <= j < |s| && j != i ==> r[j] == s[j]) &&
      multiset(r) == multiset(s) - multiset{s[i]} + multiset{Entry(id, date, weight)}
  {
    match IndexOfId(s, id)
    case None => s
    case Some(i) =>
      assert s == s[..i] + [s[i]] + s[i + 1..];
      assert s[i := Entry(id, date, weight)] == s[..i] + [Entry(id, date, weight)] + s[i + 1..];
      s[i := Entry(id, date, weight)]
  }

  /** `weights.filter(w => w.id !== id)`. */
  function WithoutId(s: seq<Entry>, id: Id): (r: seq<Entry>)
    ensures |r| <= |s|
    ensures forall i :: 0 <= i < |r| ==> r[i].id != id
    ensures forall e :: e in r ==> e in s
  {
    if s == [] then []
    else if s[0].id == id then WithoutId(s[1..], id)
    else [s[0]] + WithoutId(s[1..], id)
  }

  /** The filter removes every copy of every entry with `id` and keeps every other entry as often as it occurred. */
  lemma {:induction false} WithoutIdCounts(s: seq<Entry>, id: Id)
    ensures forall e :: multiset(WithoutId(s, id))[e] == if e.id == id then 0 else multiset(s)[e]
  {
    if s != [] {
      WithoutIdCounts(s[1..], id);
      assert s == [s[0]] + s[1..];
    }
  }

  /** The filter preserves relative order: it distributes over concatenation. */
  lemma {:induction false} WithoutIdAppend(a: seq<Entry>, b: seq<Entry>, id: Id)
    ensures WithoutId(a + b, id) == WithoutId(a, id) + WithoutId(b, id)
  {
    if a != [] {
      assert (a + b)[1..] == a[1..] + b;
      WithoutIdAppend(a[1..], b, id);
    } else {
      assert a + b == b;
    }
  }

  /**
   * Where each kept entry sat in the original list: the filter's result is
   * `s` read at strictly increasing positions (it keeps the relative order).
   */
  function KeptPositions(s: seq<Entry>, id: Id): (ix: seq<nat>)
    ensures IsKeptPositions(s, WithoutId(s, id), ix)
  {
    if s == [] then []
    else
      var rest := KeptPositions(s[1..], id);
      if s[0].id == id then
        KeptSkip(s, id, rest);
        Shifted(rest)
      else
        KeptKeep(s, id, rest);
        [0] + Shifted(rest)
  }

  /** `kept` is `s` read at the strictly increasing positions `ix`. */
  predicate IsKeptPositions(s: seq<Entry>, kept: seq<Entry>, ix: seq<nat>)
  {
    && |ix| == |kept|
    && (forall i :: 0 <= i < |ix| ==> ix[i] < |s| && kept[i] == s[ix[i]])
    && (forall i, j :: 0 <= i < j < |ix| ==> ix[i] < ix[j])
  }

  lemma KeptSkip(s: seq<Entry>, id: Id, rest: seq<nat>)
    requires s != [] && s[0].id == id
    requires IsKeptPositions(s[1..], WithoutId(s[1..], id), rest)
    ensures IsKeptPositions(s, WithoutId(s, id), Shifted(rest))
  {
    assert WithoutId(s, id) == WithoutId(s[1..], id);
  }

  lemma KeptKeep(s: seq<Entry>, id: Id, rest: seq<nat>)
    requires s != [] && s[0].id != id
    requires IsKeptPositions(s[1..], WithoutId(s[1..], id), rest)
    ensures IsKeptPositions(s, WithoutId(s, id), [0] + Shifted(rest))
  {
    var tail := WithoutId(s[1..], id);
    assert WithoutId(s, id) == [s[0]] + tail;
    var ix := [0] + Shifted(rest);
    forall i | 0 <= i < |ix| ensures ix[i] < |s| && ([s[0]] + tail)[i] == s[ix[i]] {
      if i > 0 {
        assert ix[i] == rest[i - 1] + 1;
        assert tail[i - 1] == s[1..][rest[i - 1]];
      }
    }
  }

  /** Every position one further on. */
  function Shifted(ix: seq<nat>): (r: seq<nat>)
    ensures |r| == |ix|
    ensures forall i :: 0 <= i < |ix| ==> r[i] == ix[i] + 1
  {
    seq(|ix|, i requires 0 <= i < |ix| => ix[i] + 1)
  }

  /** The kept positions are exactly those whose entry does not have `id`. */
  lemma {:induction false} KeptPositionsExact(s: seq<Entry>, id: Id, j: nat)
    requires j < |s|
    ensures j in KeptPositions(s, id) <==> s[j].id != id
  {
    if s != [] {
      var rest := KeptPositions(s[1..], id);
      ShiftedMembers(rest, j);
      if j > 0 {
        KeptPositionsExact(s[1..], id, j - 1);
        assert s[1..][j - 1] == s[j];
      }
    }
  }

  /** Shifting moves membership one position on; 0 is never a shifted position. */
  lemma ShiftedMembers(ix: seq<nat>, j: nat)
    ensures 0 !in Shifted(ix)
    ensures j > 0 ==> (j in Shifted(ix) <==> j - 1 in ix)
  {
    var shifted := Shifted(ix);
    if j > 0 {
      if j in shifted {
        var i :| 0 <= i < |shifted| && shifted[i] == j;
        assert ix[i] == j - 1;
      }
      if j - 1 in ix {
        var i :| 0 <= i < |ix| && ix[i] == j - 1;
        assert shifted[i] == j;
      }
    }
  }

  /** Filtering out an id nobody has changes nothing. */
  lemma {:induction false} WithoutAbsentId(s: seq<Entry>, id: Id)
    requires !HasId(s, id)
    ensures WithoutId(s, id) == s
  {
    if s != [] {
      assert !HasId(s[1..], id) by {
        forall i | 0 <= i < |s[1..]| ensures s[1..][i].id != id {
          assert s[1..][i] == s[i + 1];
        }
      }
      WithoutAbsentId(s[1..], id);
      assert s[0].id != id;
      assert s == [s[0]] + s[1..];
    }
  }

  /** An entry dated no later than everything in a sorted sequence can go in front of it. */
  lemma SortedCons(x: Entry, t: seq<Entry>)
    requires SortedByDate(t)
    requires forall e :: e in t ==> x.date <= e.date
    ensures SortedByDate([x] + t)
  {
    var r := [x] + t;
    forall i, j | 0 <= i < j < |r| ensures r[i].date <= r[j].date {
      assert r[j] == t[j - 1];
      if i > 0 { assert r[i] == t[i - 1]; }
    }
  }

  /** Deleting keeps the store sorted. */
  lemma {:induction false} WithoutIdKeepsSorted(s: seq<Entry>, id: Id)
    requires SortedByDate(s)
    ensures SortedByDate(WithoutId(s, id))
  {
    if s != [] {
      var tail := s[1..];
      assert SortedByDate(tail);
      WithoutIdKeepsSorted(tail, id);
      var rest := WithoutId(tail, id);
      if s[0].id != id {
        forall e | e in rest ensures s[0].date <= e.date {
          var m :| 0 <= m < |tail| && tail[m] == e;
          assert tail[m] == s[m + 1];
        }
        SortedCons(s[0], rest);
      }
    }
  }

  /** A slice of a sequence without `id` has no `id` either. */
  lemma AbsentIdInSlice(s: seq<Entry>, id: Id, lo: nat, hi: nat)
    requires lo <= hi <= |s| && !HasId(s, id)
    ensures !HasId(s[lo..hi], id)
  {
    forall i | 0 <= i < hi - lo ensures s[lo..hi][i].id != id {
      assert s[lo..hi][i] == s[lo + i];
    }
  }

  /** Filtering out the id of an entry placed between two id-free runs leaves the two runs. */
  lemma WithoutSplicedEntry(pre: seq<Entry>, x: Entry, post: seq<Entry>)
    requires !HasId(pre, x.id) && !HasId(post, x.id)
    ensures WithoutId(pre + [x] + post, x.id) == pre + post
  {
    calc {
      WithoutId(pre + [x] + post, x.id);
    == { WithoutIdAppend(pre + [x], post, x.id); }
      WithoutId(pre + [x], x.id) + WithoutId(post, x.id);
    == { WithoutIdAppend(pre, [x], x.id); assert [x][1..] == []; }
      WithoutId(pre, x.id) + WithoutId(post, x.id);
    == { WithoutAbsentId(pre, x.id); WithoutAbsentId(post, x.id); }
      pre + post;
    }
  }

  /**
   * Adding an entry with a fresh id and then deleting that id restores the
   * store exactly: the sort moved nothing but the new entry.
   */
  lemma AddThenDeleteRestores(s: seq<Entry>, x: Entry)
    requires SortedByDate(s)
    requires !HasId(s, x.id)
    ensures WithoutId(SortByDate(s + [x]), x.id) == s
  {
    var k := InsertionPoint(s, x);
    SortAfterPush(s, x);
    WithoutInserted(s, k, x);
  }

  lemma WithoutInserted(s: seq<Entry>, k: nat, x: Entry)
    requires k <= |s| && !HasId(s, x.id)
    ensures WithoutId(s[..k] + [x] + s[k..], x.id) == s
  {
    AbsentIdInSlice(s, x.id, 0, k);
    AbsentIdInSlice(s, x.id, k, |s|);
    assert s[0..k] == s[..k] && s[k..|s|] == s[k..];
    WithoutSplicedEntry(s[..k], x, s[k..]);
    assert s[..k] + s[k..] == s;
  }
}
