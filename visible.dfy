/**
 * The `visibleTasks` memo (frontend/src/TaskManager.jsx:195-227): the task list
 * narrowed by the status pill, then by the search box, then sorted by one of the four
 * orders of the sort menu. `Array.prototype.sort` is stable, so with a consistent
 * comparator its result is THE stable sort by the comparator's key; `SortBy` is that
 * sort, written as insertion, and `SortTasks` is the in-place sort the memo runs.
 */
module Visible {
  import opened Wrappers
  import opened Text
  import opened Calendar
  import opened DateHelpers
  import opened Tasks

  /** The selected pill: `filter` is "all" or one status name. */
  datatype StatusFilter = All | Only(status: Status)

  /** The four options of the sort menu: `created_desc`, `created_asc`, `due_asc`, `due_desc`. */
  datatype SortOrder = CreatedDesc | CreatedAsc | DueAsc | DueDesc

  /* ---------------- filter and search ---------------- */

  /** `ts.filter(p)`. */
  function Where(ts: seq<Task>, p: Task -> bool): (r: seq<Task>)
    ensures |r| <= |ts|
    ensures forall i :: 0 <= i < |r| ==> p(r[i])
  {
    if ts == [] then [] else (if p(ts[0]) then [ts[0]] else []) + Where(ts[1..], p)
  }

  /** `filter` keeps every occurrence of an element it accepts and none of the others. */
  lemma {:induction false} WhereCounts(ts: seq<Task>, p: Task -> bool, x: Task)
    ensures multiset(Where(ts, p))[x] == if p(x) then multiset(ts)[x] else 0
  {
    if ts != [] {
      WhereCounts(ts[1..], p, x);
      assert ts == [ts[0]] + ts[1..];
    }
  }

  /** `(t) => t.status === name`. */
  function HasStatus(name: string): Task -> bool {
    (t: Task) => t.status == name
  }

  /** `(t) => t.title.toLowerCase().includes(q) || (t.description || "").toLowerCase().includes(q)`. */
  function MatchesQuery(q: string): Task -> bool {
    (t: Task) => Includes(Lower(t.title), q) || Includes(Lower(t.description.GetOr("")), q)
  }

  /** The pill's count is the number of tasks the list shows under that pill with an empty search. */
  lemma {:induction false} PillCountIsListLength(tasks: seq<Task>, name: string)
    ensures |Where(tasks, HasStatus(name))| == CountStatus(tasks, name)
  {
    if tasks != [] {
      PillCountIsListLength(tasks[1..], name);
    }
  }

  /** The two filter steps of the memo. */
  function FilterAndSearch(tasks: seq<Task>, filter: StatusFilter, query: string): seq<Task> {
    var byStatus := if filter.All? then tasks else Where(tasks, HasStatus(StatusName(filter.status)));
    if IsBlank(query) then byStatus else Where(byStatus, MatchesQuery(Lower(query)))
  }

  /** A task passes both steps: the selected status, and the query when it is not blank. */
  predicate Shown(t: Task, filter: StatusFilter, query: string) {
    (filter.All? || t.status == StatusName(filter.status)) &&
    (IsBlank(query) || MatchesQuery(Lower(query))(t))
  }

  /* ---------------- sort ---------------- */

  /**
   * The key the comparators sort by: rank 1 (last) for a missing or unparseable due date,
   * which every due comparator treats as an infinite time; otherwise the value to sort
   * ascending by.
   */
  datatype Key = Key(rank: nat, value: int)

  predicate KeyLe(a: Key, b: Key) {
    a.rank < b.rank || (a.rank == b.rank && a.value <= b.value)
  }

  function SortKey(t: Task, order: SortOrder, engine: EngineParse): Key {
    match order
    case CreatedDesc => Key(0, -t.id)
    case CreatedAsc => Key(0, t.id)
    case DueAsc =>
      (match ParseDateSafe(t.dueDate, engine)
       case Some(c) => Key(0, Ordinal(c))
       case None => Key(1, 0))
    case DueDesc =>
      (match ParseDateSafe(t.dueDate, engine)
       case Some(c) => Key(0, -Ordinal(c))
       case None => Key(1, 0))
  }

  /**
   * The comparator handed to `out.sort`, up to its sign. An infinite difference is
   * -1 or 1, and `Infinity - Infinity` is `NaN`, which the sort reads as 0.
   */
  function Compare(a: Task, b: Task, order: SortOrder, engine: EngineParse): int {
    match order
    case CreatedDesc => b.id - a.id
    case CreatedAsc => a.id - b.id
    case DueAsc =>
      (match (ParseDateSafe(a.dueDate, engine), ParseDateSafe(b.dueDate, engine))
       case (Some(da), Some(db)) => Ordinal(da) - Ordinal(db)
       case (Some(_), None) => -1
       case (None, Some(_)) => 1
       case (None, None) => 0)
    case DueDesc =>
      (match (ParseDateSafe(a.dueDate, engine), ParseDateSafe(b.dueDate, engine))
       case (Some(da), Some(db)) => Ordinal(db) - Ordinal(da)
       case (Some(_), None) => -1
       case (None, Some(_)) => 1
       case (None, None) => 0)
  }

  /** Each comparator is consistent: it orders and equates tasks exactly as their keys do. */
  lemma CompareAgreesWithKey(a: Task, b: Task, order: SortOrder, engine: EngineParse)
    ensures Compare(a, b, order, engine) <= 0 <==> KeyLe(SortKey(a, order, engine), SortKey(b, order, engine))
    ensures Compare(a, b, order, engine) == 0 <==> SortKey(a, order, engine) == SortKey(b, order, engine)
  {
  }

  /** The key function of a sort order, as the sort sees it. */
  function KeyOf(order: SortOrder, engine: EngineParse): Task -> Key {
    (t: Task) => SortKey(t, order, engine)
  }

  /** Insert `x` before the first element it does not sort after. */
  function Insert(x: Task, r: seq<Task>, key: Task -> Key): seq<Task> {
    if r == [] then [x]
    else if KeyLe(key(x), key(r[0])) then [x] + r
    else [r[0]] + Insert(x, r[1..], key)
  }

  /** The stable sort of `s` by `key`. */
  function SortBy(s: seq<Task>, key: Task -> Key): seq<Task> {
    if s == [] then [] else Insert(s[0], SortBy(s[1..], key), key)
  }

  ghost predicate SortedBy(s: seq<Task>, key: Task -> Key) {
    forall i, j :: 0 <= i < j < |s| ==> KeyLe(key(s[i]), key(s[j]))
  }

  /** A key below `x`'s and all of `r`'s is below every key of `Insert(x, r)`. */
  lemma {:induction false} InsertLowerBound(x: Task, r: seq<Task>, key: Task -> Key, b: Key)
    requires KeyLe(b, key(x))
    requires forall k :: 0 <= k < |r| ==> KeyLe(b, key(r[k]))
    ensures forall k :: 0 <= k < |Insert(x, r, key)| ==> KeyLe(b, key(Insert(x, r, key)[k]))
  {
    if r != [] && !KeyLe(key(x), key(r[0])) {
      InsertLowerBound(x, r[1..], key, b);
      var rest := Insert(x, r[1..], key);
      forall k | 0 <= k < |[r[0]] + rest| ensures KeyLe(b, key(([r[0]] + rest)[k])) {
        if k > 0 {
          assert ([r[0]] + rest)[k] == rest[k - 1];
        }
      }
    }
  }

  lemma {:induction false} InsertPermutation(x: Task, r: seq<Task>, key: Task -> Key)
    ensures multiset(Insert(x, r, key)) == multiset(r) + multiset{x}
    ensures |Insert(x, r, key)| == |r| + 1
  {
    if r != [] && !KeyLe(key(x), key(r[0])) {
      InsertPermutation(x, r[1..], key);
      assert r == [r[0]] + r[1..];
    }
  }

  /** Prepending an element no greater than all of a sorted list keeps it sorted. */
  lemma ConsSorted(y: Task, r: seq<Task>, key: Task -> Key)
    requires SortedBy(r, key)
    requires forall k :: 0 <= k < |r| ==> KeyLe(key(y), key(r[k]))
    ensures SortedBy([y] + r, key)
  {
    var res := [y] + r;
    forall i, j | 0 <= i < j < |res| ensures KeyLe(key(res[i]), key(res[j])) {
      assert res[j] == r[j - 1];
      if i > 0 {
        assert res[i] == r[i - 1];
      }
    }
  }

  lemma {:induction false} InsertSorted(x: Task, r: seq<Task>, key: Task -> Key)
    requires SortedBy(r, key)
    ensures SortedBy(Insert(x, r, key), key)
  {
    if r == [] {
    } else if KeyLe(key(x), key(r[0])) {
      forall k | 0 <= k < |r| ensures KeyLe(key(x), key(r[k])) {
        if k > 0 {
          assert KeyLe(key(r[0]), key(r[k]));
        }
      }
      ConsSorted(x, r, key);
    } else {
      var tail := r[1..];
      assert SortedBy(tail, key) by {
        forall i, j | 0 <= i < j < |tail| ensures KeyLe(key(tail[i]), key(tail[j])) {
          assert tail[i] == r[i + 1] && tail[j] == r[j + 1];
        }
      }
      InsertSorted(x, tail, key);
      forall k | 0 <= k < |tail| ensures KeyLe(key(r[0]), key(tail[k])) {
        assert tail[k] == r[k + 1];
      }
      InsertLowerBound(x, tail, key, key(r[0]));
      ConsSorted(r[0], Insert(x, tail, key), key);
    }
  }

  /** The stable sort is sorted by key and a permutation of its input. */
  lemma {:induction false} SortBySortedPermutation(s: seq<Task>, key: Task -> Key)
    ensures SortedBy(SortBy(s, key), key)
    ensures multiset(SortBy(s, key)) == multiset(s)
    ensures |SortBy(s, key)| == |s|
  {
    if s != [] {
      var t := SortBy(s[1..], key);
      assert SortBy(s, key) == Insert(s[0], t, key);
      SortBySortedPermutation(s[1..], key);
      InsertSorted(s[0], t, key);
      InsertPermutation(s[0], t, key);
      assert multiset(s) == multiset(s[1..]) + multiset{s[0]} by {
        assert s == [s[0]] + s[1..];
      }
    }
  }

  /** `(t) => key(t) == k`. */
  function KeyIs(k: Key, key: Task -> Key): Task -> bool {
    (t: Task) => key(t) == k
  }

  lemma WhereCons(y: Task, rest: seq<Task>, p: Task -> bool)
    ensures Where([y] + rest, p) == (if p(y) then [y] else []) + Where(rest, p)
  {
    assert ([y] + rest)[0] == y && ([y] + rest)[1..] == rest;
  }

  lemma {:induction false} InsertStable(x: Task, r: seq<Task>, k: Key, key: Task -> Key)
    ensures Where(Insert(x, r, key), KeyIs(k, key)) == (if key(x) == k then [x] else []) + Where(r, KeyIs(k, key))
  {
    var p := KeyIs(k, key);
    if r == [] {
      WhereCons(x, [], p);
    } else if KeyLe(key(x), key(r[0])) {
      WhereCons(x, r, p);
    } else {
      var rest := Insert(x, r[1..], key);
      InsertStable(x, r[1..], k, key);
      WhereCons(r[0], rest, p);
      WhereCons(r[0], r[1..], p);
      assert r == [r[0]] + r[1..];
      assert !(p(x) && p(r[0]));
    }
  }

  /** Tasks with equal keys come out of the sort in the order they went in. */
  lemma {:induction false} SortByStable(s: seq<Task>, k: Key, key: Task -> Key)
    ensures Where(SortBy(s, key), KeyIs(k, key)) == Where(s, KeyIs(k, key))
  {
    if s != [] {
      SortByStable(s[1..], k, key);
      InsertStable(s[0], SortBy(s[1..], key), k, key);
    }
  }

  /**
   * What each order means for a list sorted by its key: ids non-increasing (newest first)
   * or non-decreasing; for both due orders every task with a parseable due date before
   * every task without one, the dated ones earliest first or latest first.
   */
  lemma SortOrderMeaning(s: seq<Task>, order: SortOrder, engine: EngineParse)
    requires SortedBy(s, KeyOf(order, engine))
    ensures order == CreatedDesc ==> forall i, j :: 0 <= i < j < |s| ==> s[i].id >= s[j].id
    ensures order == CreatedAsc ==> forall i, j :: 0 <= i < j < |s| ==> s[i].id <= s[j].id
    ensures order == DueAsc || order == DueDesc ==>
      forall i, j :: 0 <= i < j < |s| && ParseDateSafe(s[j].dueDate, engine).Some? ==>
        ParseDateSafe(s[i].dueDate, engine).Some?
    ensures order == DueAsc ==>
      forall i, j :: 0 <= i < j < |s| && ParseDateSafe(s[i].dueDate, engine).Some? && ParseDateSafe(s[j].dueDate, engine).Some? ==>
        !Before(ParseDateSafe(s[j].dueDate, engine).value, ParseDateSafe(s[i].dueDate, engine).value)
    ensures order == DueDesc ==>
      forall i, j :: 0 <= i < j < |s| && ParseDateSafe(s[i].dueDate, engine).Some? && ParseDateSafe(s[j].dueDate, engine).Some? ==>
        !Before(ParseDateSafe(s[i].dueDate, engine).value, ParseDateSafe(s[j].dueDate, engine).value)
  {
    forall i, j | 0 <= i < j < |s| && ParseDateSafe(s[i].dueDate, engine).Some? && ParseDateSafe(s[j].dueDate, engine).Some?
      ensures var di, dj := ParseDateSafe(s[i].dueDate, engine).value, ParseDateSafe(s[j].dueDate, engine).value;
        (Before(di, dj) ==> Ordinal(di) < Ordinal(dj)) && (Before(dj, di) ==> Ordinal(dj) < Ordinal(di))
    {
      OrdinalOrder(ParseDateSafe(s[i].dueDate, engine).value, ParseDateSafe(s[j].dueDate, engine).value);
    }
  }

  /** Inserting in front of the first element `x` does not sort after puts `x` at that position. */
  lemma {:induction false} InsertAt(x: Task, r: seq<Task>, key: Task -> Key, j: nat)
    requires j <= |r|
    requires forall k :: 0 <= k < j ==> !KeyLe(key(x), key(r[k]))
    requires j == |r| || KeyLe(key(x), key(r[j]))
    ensures Insert(x, r, key) == r[..j] + [x] + r[j..]
  {
    if j > 0 {
      var t := r[1..];
      forall k | 0 <= k < j - 1 ensures !KeyLe(key(x), key(t[k])) {
        assert t[k] == r[k + 1];
      }
      assert j - 1 == |t| || t[j - 1] == r[j];
      InsertAt(x, t, key, j - 1);
      assert !KeyLe(key(x), key(r[0]));
      assert Insert(x, r, key) == [r[0]] + Insert(x, t, key);
      assert r[..j] == [r[0]] + t[..j - 1];
      assert r[j..] == t[j - 1..];
    }
  }

  /** The comparator of a sort order, as `out.sort` receives it. */
  function ComparatorOf(order: SortOrder, engine: EngineParse): (Task, Task) -> int {
    (a: Task, b: Task) => Compare(a, b, order, engine)
  }

  /** `cmp` puts `a` after `b` exactly when the key of `a` is above the key of `b`. */
  ghost predicate Consistent(cmp: (Task, Task) -> int, key: Task -> Key) {
    forall a, b :: cmp(a, b) > 0 <==> !KeyLe(key(a), key(b))
  }

  lemma ComparatorConsistent(order: SortOrder, engine: EngineParse)
    ensures Consistent(ComparatorOf(order, engine), KeyOf(order, engine))
  {
    forall a, b ensures ComparatorOf(order, engine)(a, b) > 0 <==> !KeyLe(KeyOf(order, engine)(a), KeyOf(order, engine)(b)) {
      CompareAgreesWithKey(a, b, order, engine);
    }
  }

  /**
   * `s.sort(cmp)` for a consistent comparator: an insertion sort driven by `cmp`, which
   * yields the stable sort by the key `cmp` agrees with.
   */
  method SortWith(s: seq<Task>, cmp: (Task, Task) -> int, key: Task -> Key) returns (r: seq<Task>)
    requires Consistent(cmp, key)
    ensures r == SortBy(s, key)
  {
    r := [];
    var i := |s|;
    while i > 0
      invariant 0 <= i <= |s|
      invariant r == SortBy(s[i..], key)
    {
      i := i - 1;
      var j := FindSlot(s[i], r, cmp, key);
      InsertAt(s[i], r, key, j);
      assert s[i..] == [s[i]] + s[i + 1..];
      r := r[..j] + [s[i]] + r[j..];
    }
  }

  /** The first position in `r` at which `cmp` does not put `x` after the element there. */
  method FindSlot(x: Task, r: seq<Task>, cmp: (Task, Task) -> int, key: Task -> Key) returns (j: nat)
    requires Consistent(cmp, key)
    ensures j <= |r|
    ensures forall k :: 0 <= k < j ==> !KeyLe(key(x), key(r[k]))
    ensures j == |r| || KeyLe(key(x), key(r[j]))
  {
    j := 0;
    while j < |r| && cmp(x, r[j]) > 0
      invariant j <= |r|
      invariant forall k :: 0 <= k < j ==> !KeyLe(key(x), key(r[k]))
    {
      j := j + 1;
    }
  }

  /** `out.sort(...)` with the comparator of the selected order. */
  method SortTasks(s: seq<Task>, order: SortOrder, engine: EngineParse) returns (r: seq<Task>)
    ensures r == SortBy(s, KeyOf(order, engine))
  {
    ComparatorConsistent(order, engine);
    r := SortWith(s, ComparatorOf(order, engine), KeyOf(order, engine));
  }

  /** Both filter steps keep each occurrence of a shown task and drop every other task. */
  lemma FilterAndSearchContents(tasks: seq<Task>, filter: StatusFilter, query: string, x: Task)
    ensures multiset(FilterAndSearch(tasks, filter, query))[x] ==
            if Shown(x, filter, query) then multiset(tasks)[x] else 0
  {
    var byStatus := if filter.All? then tasks else Where(tasks, HasStatus(StatusName(filter.status)));
    if filter.Only? {
      WhereCounts(tasks, HasStatus(StatusName(filter.status)), x);
    }
    if !IsBlank(query) {
      WhereCounts(byStatus, MatchesQuery(Lower(query)), x);
    }
  }

  /** A list with the same elements as both filter steps give holds the shown tasks and only them. */
  lemma ShownOnly(tasks: seq<Task>, filter: StatusFilter, query: string, out: seq<Task>)
    requires multiset(out) == multiset(FilterAndSearch(tasks, filter, query))
    ensures forall x :: multiset(out)[x] == if Shown(x, filter, query) then multiset(tasks)[x] else 0
    ensures multiset(out) <= multiset(tasks)
    ensures filter.Only? ==> forall i :: 0 <= i < |out| ==> out[i].status == StatusName(filter.status)
    ensures !IsBlank(query) ==> forall i :: 0 <= i < |out| ==>
      Includes(Lower(out[i].title), Lower(query)) || Includes(Lower(out[i].description.GetOr("")), Lower(query))
  {
    forall x ensures multiset(out)[x] == if Shown(x, filter, query) then multiset(tasks)[x] else 0 {
      FilterAndSearchContents(tasks, filter, query, x);
    }
    forall i | 0 <= i < |out| ensures Shown(out[i], filter, query) {
      assert out[i] in multiset(out);
    }
  }

  /** The stable sort by any key is sorted, a permutation, and keeps tasks of equal key in order. */
  lemma SortByFacts(s: seq<Task>, key: Task -> Key)
    ensures SortedBy(SortBy(s, key), key)
    ensures multiset(SortBy(s, key)) == multiset(s)
    ensures forall k :: Where(SortBy(s, key), KeyIs(k, key)) == Where(s, KeyIs(k, key))
  {
    SortBySortedPermutation(s, key);
    forall k ensures Where(SortBy(s, key), KeyIs(k, key)) == Where(s, KeyIs(k, key)) {
      SortByStable(s, k, key);
    }
  }

  /**
   * `visibleTasks`: a copy of the task list, narrowed by the pill, narrowed by the search
   * text (lower-cased but not trimmed) when the trimmed text is non-empty, then sorted.
   * The result holds every occurrence of every shown task and nothing else, sorted by the
   * order's key, with tasks of equal key in list order.
   */
  method VisibleTasks(tasks: seq<Task>, filter: StatusFilter, query: string, order: SortOrder, engine: EngineParse)
    returns (out: seq<Task>)
    ensures forall x :: multiset(out)[x] == if Shown(x, filter, query) then multiset(tasks)[x] else 0
    ensures multiset(out) <= multiset(tasks)
    ensures filter.Only? ==> forall i :: 0 <= i < |out| ==> out[i].status == StatusName(filter.status)
    ensures !IsBlank(query) ==> forall i :: 0 <= i < |out| ==>
      Includes(Lower(out[i].title), Lower(query)) || Includes(Lower(out[i].description.GetOr("")), Lower(query))
    ensures SortedBy(out, KeyOf(order, engine))
    ensures forall k :: Where(out, KeyIs(k, KeyOf(order, engine))) ==
                        Where(FilterAndSearch(tasks, filter, query), KeyIs(k, KeyOf(order, engine)))
    ensures out == SortBy(FilterAndSearch(tasks, filter, query), KeyOf(order, engine))
  {
    out := tasks;
    if filter.Only? {
      out := Where(out, HasStatus(StatusName(filter.status)));
    }
    if !IsBlank(query) {
      var q := Lower(query);
      out := Where(out, MatchesQuery(q));
    }
    assert out == FilterAndSearch(tasks, filter, query);
    SortByFacts(out, KeyOf(order, engine));
    out := SortTasks(out, order, engine);
    ShownOnly(tasks, filter, query, out);
  }

  /** With the "all" pill and a blank search the list is a reordering of all the tasks. */
  lemma VisibleAllIsPermutation(tasks: seq<Task>, query: string, order: SortOrder, engine: EngineParse)
    requires IsBlank(query)
    ensures multiset(SortBy(FilterAndSearch(tasks, All, query), KeyOf(order, engine))) == multiset(tasks)
    ensures |SortBy(FilterAndSearch(tasks, All, query), KeyOf(order, engine))| == |tasks|
  {
    SortBySortedPermutation(tasks, KeyOf(order, engine));
  }

  /** With a blank search the list under one status pill is as long as that pill's count. */
  lemma {:induction false} VisiblePillLength(tasks: seq<Task>, status: Status, query: string, order: SortOrder, engine: EngineParse)
    requires IsBlank(query)
    ensures |SortBy(FilterAndSearch(tasks, Only(status), query), KeyOf(order, engine))| == CountStatus(tasks, StatusName(status))
    ensures |SortBy(FilterAndSearch(tasks, Only(status), query), KeyOf(order, engine))| == PillCount(TaskCounts(tasks), status)
  {
    SortBySortedPermutation(FilterAndSearch(tasks, Only(status), query), KeyOf(order, engine));
    PillCountIsListLength(tasks, StatusName(status));
  }
}
