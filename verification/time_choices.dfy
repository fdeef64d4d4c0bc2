/** The list of times offered for a stop (populateTimes): the weekday and the
    weekend times at the stop's index, duplicates removed keeping first
    occurrences (`new Set`), then sorted in place by the browser's sort key
    (the value of the time with its colon removed).  The sort is modelled as
    a stable insertion sort, written for any key so that its proofs do not
    depend on how the key is computed. */
module TimeChoices {
  import opened Wrappers
  import opened TimeText
  import opened Dataset

  predicate NoDuplicates(s: seq<string>) {
    forall i, j :: 0 <= i < j < |s| ==> s[i] != s[j]
  }

  /** Ascending by key. */
  predicate SortedByKey(s: seq<string>, key: string -> nat) {
    forall i, j :: 0 <= i < j < |s| ==> key(s[i]) <= key(s[j])
  }

  /** The distinct elements of s in order of first occurrence. */
  function Dedup(s: seq<string>): seq<string> {
    if s == [] then []
    else
      var d := Dedup(s[..|s| - 1]);
      if s[|s| - 1] in d then d else d + [s[|s| - 1]]
  }

  /** Dedup keeps exactly the elements of s, each once. */
  lemma {:induction false} DedupSpec(s: seq<string>)
    ensures NoDuplicates(Dedup(s))
    ensures forall x :: x in Dedup(s) <==> x in s
  {
    if s != [] {
      var init := s[..|s| - 1];
      DedupSpec(init);
      assert s == init + [s[|s| - 1]];
    }
  }

  /** s with x placed after every element whose key is at most x's and before
      the rest: one step of a stable insertion sort. */
  function Insert(x: string, s: seq<string>, key: string -> nat): seq<string> {
    if s == [] then [x]
    else if key(s[|s| - 1]) <= key(x) then s + [x]
    else Insert(x, s[..|s| - 1], key) + [s[|s| - 1]]
  }

  /** Stable insertion sort by key, inserting the elements left to right. */
  function SortByKey(s: seq<string>, key: string -> nat): seq<string> {
    if s == [] then []
    else Insert(s[|s| - 1], SortByKey(s[..|s| - 1], key), key)
  }

  lemma {:induction false} InsertPermutes(x: string, s: seq<string>, key: string -> nat)
    ensures multiset(Insert(x, s, key)) == multiset(s) + multiset{x}
  {
    if s != [] && key(s[|s| - 1]) > key(x) {
      var init := s[..|s| - 1];
      InsertPermutes(x, init, key);
      assert s == init + [s[|s| - 1]];
    }
  }

  lemma {:induction false} InsertSorted(x: string, s: seq<string>, key: string -> nat)
    requires SortedByKey(s, key)
    ensures SortedByKey(Insert(x, s, key), key)
  {
    if s != [] && key(s[|s| - 1]) > key(x) {
      var init, last := s[..|s| - 1], s[|s| - 1];
      InsertSorted(x, init, key);
      InsertPermutes(x, init, key);
      var r := Insert(x, init, key);
      forall i | 0 <= i < |r| ensures key(r[i]) <= key(last) {
        assert r[i] in multiset(r);
        if r[i] != x {
          assert r[i] in multiset(init);
        }
      }
    }
  }

  /** The sort rearranges its input. */
  lemma {:induction false} SortByKeyPermutes(s: seq<string>, key: string -> nat)
    ensures multiset(SortByKey(s, key)) == multiset(s)
  {
    if s != [] {
      var init, last := s[..|s| - 1], s[|s| - 1];
      assert SortByKey(s, key) == Insert(last, SortByKey(init, key), key);
      SortByKeyPermutes(init, key);
      InsertPermutes(last, SortByKey(init, key), key);
      assert multiset(s) == multiset(init) + multiset{last} by {
        assert s == init + [last];
      }
    }
  }

  /** The sort's result is ascending by key. */
  lemma {:induction false} SortByKeySorted(s: seq<string>, key: string -> nat)
    ensures SortedByKey(SortByKey(s, key), key)
  {
    if s != [] {
      SortByKeySorted(s[..|s| - 1], key);
      InsertSorted(s[|s| - 1], SortByKey(s[..|s| - 1], key), key);
    }
  }

  /** In a list without duplicates every element occurs once. */
  lemma {:induction false} NoDuplicatesCount(a: seq<string>)
    requires NoDuplicates(a)
    ensures forall x :: multiset(a)[x] <= 1
  {
    if a != [] {
      var init, last := a[..|a| - 1], a[|a| - 1];
      NoDuplicatesCount(init);
      assert a == init + [last];
      assert last !in init;
    }
  }

  /** An element at two positions occurs at least twice. */
  lemma RepeatCount(b: seq<string>, i: int, j: int)
    requires 0 <= i < j < |b|
    ensures b[i] == b[j] ==> multiset(b)[b[i]] >= 2
  {
    if b[i] == b[j] {
      assert b == b[..j] + b[j..];
      assert b[i] in multiset(b[..j]) && b[j] in multiset(b[j..]);
    }
  }

  /** A rearrangement of a list without duplicates has none. */
  lemma PermutationNoDuplicates(a: seq<string>, b: seq<string>)
    requires multiset(a) == multiset(b) && NoDuplicates(a)
    ensures NoDuplicates(b)
  {
    NoDuplicatesCount(a);
    forall i, j | 0 <= i < j < |b| ensures b[i] != b[j] {
      RepeatCount(b, i, j);
    }
  }

  /** The times offered for a stop of a route: nothing for an unknown stop. */
  function TimeChoiceList(route: Route, stopName: string): seq<string>
    requires "weekday" in route.schedules && "weekend" in route.schedules
  {
    match FindStopIndex(route.stops, stopName)
    case None => []
    case Some(i) => SortByKey(Dedup(TimesAt(route, "weekday", i) + TimesAt(route, "weekend", i)), TimeKey)
  }

  /** populateTimes offers each time of the stop's weekday or weekend list
      exactly once, and nothing else, ascending by sort key. */
  lemma TimeChoiceListSpec(route: Route, stopName: string)
    requires "weekday" in route.schedules && "weekend" in route.schedules
    ensures NoDuplicates(TimeChoiceList(route, stopName)) && SortedByKey(TimeChoiceList(route, stopName), TimeKey)
    ensures FindStopIndex(route.stops, stopName).None? ==> TimeChoiceList(route, stopName) == []
    ensures FindStopIndex(route.stops, stopName).Some? ==>
              var i := FindStopIndex(route.stops, stopName).value;
              forall t :: t in TimeChoiceList(route, stopName)
                          <==> t in TimesAt(route, "weekday", i) || t in TimesAt(route, "weekend", i)
  {
    match FindStopIndex(route.stops, stopName)
    case None =>
    case Some(i) =>
      var all := TimesAt(route, "weekday", i) + TimesAt(route, "weekend", i);
      DedupSpec(all);
      var r := SortByKey(Dedup(all), TimeKey);
      SortByKeyPermutes(Dedup(all), TimeKey);
      SortByKeySorted(Dedup(all), TimeKey);
      PermutationNoDuplicates(Dedup(all), r);
      forall t ensures t in r <==> t in Dedup(all) {
        assert t in r <==> t in multiset(r);
        assert t in Dedup(all) <==> t in multiset(Dedup(all));
      }
  }

  /** The loops of populateTimes: `new Set` over the concatenation, then an
      in-place sort of the resulting array. */
  method SortedTimeChoices(weekdayTimes: seq<string>, weekendTimes: seq<string>) returns (r: seq<string>)
    ensures r == SortByKey(Dedup(weekdayTimes + weekendTimes), TimeKey)
  {
    var all := weekdayTimes + weekendTimes;
    var distinct: seq<string> := [];
    var i := 0;
    while i < |all|
      invariant 0 <= i <= |all|
      invariant distinct == Dedup(all[..i])
    {
      assert all[..i + 1][..i] == all[..i];
      if all[i] !in distinct {
        distinct := distinct + [all[i]];
      }
      i := i + 1;
    }
    assert all[..i] == all;
    var a := new string[|distinct|](k requires 0 <= k < |distinct| => distinct[k]);
    assert a[..] == distinct;
    InsertionSort(a, TimeKey);
    r := a[..];
    assert distinct[..a.Length] == distinct;
  }

  /** Sorts a in place, stably, by key. */
  method InsertionSort(a: array<string>, key: string -> nat)
    modifies a
    ensures a[..] == SortByKey(old(a[..]), key)
  {
    ghost var input := a[..];
    var i := 0;
    while i < a.Length
      invariant 0 <= i <= a.Length
      invariant a[..i] == SortByKey(input[..i], key)
      invariant a[i..] == input[i..]
    {
      assert a[i] == input[i];
      InsertNext(a, i, key);
      SortByKeyStep(input, i, key);
      assert a[i + 1..] == input[i + 1..] by {
        forall k | i < k < a.Length ensures a[k] == input[k] {
          assert input[k] == input[i..][k - i];
        }
      }
      i := i + 1;
    }
    assert a[..i] == a[..] && input[..i] == input;
  }

  /** The inner loop of the sort: moves a[i] left past the larger keys of the
      sorted prefix a[..i]. */
  method InsertNext(a: array<string>, i: int, key: string -> nat)
    requires 0 <= i < a.Length
    modifies a
    ensures a[..i + 1] == Insert(old(a[i]), old(a[..i]), key)
    ensures forall k :: i < k < a.Length ==> a[k] == old(a[k])
  {
    var x := a[i];
    ghost var sorted := a[..i];
    var j := i;
    while j > 0 && key(a[j - 1]) > key(x)
      invariant 0 <= j <= i
      invariant forall k :: 0 <= k < j ==> a[k] == sorted[k]
      invariant forall k :: j < k <= i ==> a[k] == sorted[k - 1]
      invariant forall k :: i < k < a.Length ==> a[k] == old(a[k])
      invariant forall k :: j <= k < i ==> key(sorted[k]) > key(x)
    {
      a[j] := a[j - 1];
      j := j - 1;
    }
    a[j] := x;
    InsertAt(x, sorted, j, key);
    Placed(a[..], sorted, x, i, j);
  }

  /** The array after the shifting loop, read as a sequence. */
  lemma Placed(r: seq<string>, sorted: seq<string>, x: string, i: int, j: int)
    requires 0 <= j <= i < |r| && |sorted| == i
    requires forall k :: 0 <= k < j ==> r[k] == sorted[k]
    requires r[j] == x
    requires forall k :: j < k <= i ==> r[k] == sorted[k - 1]
    ensures r[..i + 1] == sorted[..j] + [x] + sorted[j..]
  {
  }

  /** Sorting one more element inserts it into the sorted prefix. */
  lemma SortByKeyStep(s: seq<string>, i: int, key: string -> nat)
    requires 0 <= i < |s|
    ensures SortByKey(s[..i + 1], key) == Insert(s[i], SortByKey(s[..i], key), key)
  {
    assert s[..i + 1][..i] == s[..i];
  }

  /** x is inserted after the last element whose key is at most x's. */
  lemma {:induction false} InsertAt(x: string, s: seq<string>, j: int, key: string -> nat)
    requires 0 <= j <= |s|
    requires j == 0 || key(s[j - 1]) <= key(x)
    requires forall k :: j <= k < |s| ==> key(s[k]) > key(x)
    ensures Insert(x, s, key) == s[..j] + [x] + s[j..]
    decreases |s|
  {
    if |s| == j {
      assert s[..j] == s && s[j..] == [];
    } else {
      var init, last := s[..|s| - 1], s[|s| - 1];
      InsertAt(x, init, j, key);
      assert init[..j] == s[..j];
      assert s[j..] == init[j..] + [last];
    }
  }
}
