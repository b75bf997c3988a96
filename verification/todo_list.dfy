/**
 * The list-level logic of the to-do store: the filters, the in-place edits
 * and the derived views, as functions on a sequence of items, with the
 * properties the store relies on.
 */
module TodoList {
  import opened TodosInterface

  // ---------------------------------------------------------------- filtering

  /** `s.filter(p)`: the elements of `s` that satisfy `p`, in their original order. */
  function Filter<T(!new)>(s: seq<T>, p: T -> bool): (r: seq<T>)
    ensures |r| <= |s|
    ensures forall x :: x in r <==> x in s && p(x)
  {
    if s == [] then []
    else if p(s[0]) then [s[0]] + Filter(s[1..], p)
    else Filter(s[1..], p)
  }

  /**
   * `filter` keeps every copy of an element that passes and no copy of one
   * that fails: each element occurs as often as in the input, or not at all.
   */
  lemma {:induction false} FilterCounts<T(!new)>(s: seq<T>, p: T -> bool)
    ensures forall x :: multiset(Filter(s, p))[x] == if p(x) then multiset(s)[x] else 0
  {
    if s != [] {
      FilterCounts(s[1..], p);
      assert s == [s[0]] + s[1..];
    }
  }

  /** `a` is `b` with some elements dropped and the rest kept in order. */
  ghost predicate IsSubsequence<T>(a: seq<T>, b: seq<T>)
    decreases |b|
  {
    || a == []
    || (b != [] && ((a[0] == b[0] && IsSubsequence(a[1..], b[1..])) || IsSubsequence(a, b[1..])))
  }

  /** Every sequence is a subsequence of itself. */
  lemma {:induction false} SubsequenceOfSelf<T>(s: seq<T>)
    ensures IsSubsequence(s, s)
  {
    if s != [] {
      SubsequenceOfSelf(s[1..]);
    }
  }

  lemma {:induction false} FilterIsSubsequence<T(!new)>(s: seq<T>, p: T -> bool)
    ensures IsSubsequence(Filter(s, p), s)
  {
    if s != [] {
      FilterIsSubsequence(s[1..], p);
      var r := Filter(s, p);
      if p(s[0]) {
        assert r[0] == s[0] && r[1..] == Filter(s[1..], p);
      }
    }
  }

  /** A filter that every element passes returns its input. */
  lemma {:induction false} FilterKeepsAll<T(!new)>(s: seq<T>, p: T -> bool)
    requires forall x :: x in s ==> p(x)
    ensures Filter(s, p) == s
  {
    if s != [] {
      assert s[0] in s;
      FilterKeepsAll(s[1..], p);
      assert s == [s[0]] + s[1..];
    }
  }

  /** A filter that no element passes returns nothing. */
  lemma {:induction false} FilterDropsAll<T(!new)>(s: seq<T>, p: T -> bool)
    requires forall x :: x in s ==> !p(x)
    ensures Filter(s, p) == []
  {
    if s != [] {
      assert s[0] in s;
      FilterDropsAll(s[1..], p);
    }
  }

  /** Filtering a concatenation filters each part. */
  lemma {:induction false} FilterAppend<T(!new)>(a: seq<T>, b: seq<T>, p: T -> bool)
    ensures Filter(a + b, p) == Filter(a, p) + Filter(b, p)
  {
    if a != [] {
      var ab := a + b;
      assert ab[0] == a[0] && ab[1..] == a[1..] + b;
      FilterAppend(a[1..], b, p);
      if p(a[0]) {
        calc {
          Filter(ab, p);
          [a[0]] + Filter(a[1..] + b, p);
          [a[0]] + (Filter(a[1..], p) + Filter(b, p));
          ([a[0]] + Filter(a[1..], p)) + Filter(b, p);
        }
      } else {
        assert Filter(ab, p) == Filter(a[1..] + b, p);
      }
    } else {
      assert a + b == b;
    }
  }

  predicate IsActive(t: Todo) { !t.completed }

  predicate IsDone(t: Todo) { t.completed }

  /** The test `removeTodo` filters with: keep the items whose id is not `id`. */
  function OtherThan(id: int): Todo -> bool {
    (t: Todo) => t.id != id
  }

  /**
   * `removeTodo`: the result holds exactly the items whose id is not `id`, in
   * their original order; when no item has that id the list is unchanged.
   */
  lemma RemoveDropsId(ts: seq<Todo>, id: int)
    ensures forall t :: t in Filter(ts, OtherThan(id)) <==> t in ts && t.id != id
    ensures forall t :: multiset(Filter(ts, OtherThan(id)))[t] == if t.id != id then multiset(ts)[t] else 0
    ensures IsSubsequence(Filter(ts, OtherThan(id)), ts)
    ensures (forall t :: t in ts ==> t.id != id) ==> Filter(ts, OtherThan(id)) == ts
  {
    FilterIsSubsequence(ts, OtherThan(id));
    FilterCounts(ts, OtherThan(id));
    if forall t :: t in ts ==> t.id != id {
      FilterKeepsAll(ts, OtherThan(id));
    }
  }

  /** Every item is either active or done: the two filters split the list. */
  lemma {:induction false} ActiveDonePartition(ts: seq<Todo>)
    ensures |Filter(ts, IsActive)| + |Filter(ts, IsDone)| == |ts|
  {
    if ts != [] {
      ActiveDonePartition(ts[1..]);
    }
  }

  // ------------------------------------------------------------ the invariant

  /** No two items share an id. */
  ghost predicate UniqueIds(ts: seq<Todo>) {
    forall i, j :: 0 <= i < |ts| && 0 <= j < |ts| && i != j ==> ts[i].id != ts[j].id
  }

  /** Every id was handed out by the counter, which starts at 1: `1 <= id < counter`. */
  ghost predicate IdsBelow(ts: seq<Todo>, counter: int) {
    forall t :: t in ts ==> 1 <= t.id < counter
  }

  /** The store invariant: the counter is positive, ids are distinct and each was handed out by the counter. */
  ghost predicate WellFormed(ts: seq<Todo>, counter: int) {
    1 <= counter && UniqueIds(ts) && IdsBelow(ts, counter)
  }

  lemma {:induction false} FilterKeepsUniqueIds(ts: seq<Todo>, p: Todo -> bool)
    requires UniqueIds(ts)
    ensures UniqueIds(Filter(ts, p))
  {
    if ts != [] {
      var rest := Filter(ts[1..], p);
      assert UniqueIds(ts[1..]) by {
        forall i, j | 0 <= i < |ts| - 1 && 0 <= j < |ts| - 1 && i != j
          ensures ts[1..][i].id != ts[1..][j].id
        {
          assert ts[1..][i] == ts[i + 1] && ts[1..][j] == ts[j + 1];
        }
      }
      FilterKeepsUniqueIds(ts[1..], p);
      if p(ts[0]) {
        var r := [ts[0]] + rest;
        forall k | 0 <= k < |rest| ensures rest[k].id != ts[0].id {
          assert rest[k] in rest;
          var m :| 0 <= m < |ts[1..]| && ts[1..][m] == rest[k];
          assert ts[m + 1] == rest[k];
        }
        forall i, j | 0 <= i < |r| && 0 <= j < |r| && i != j
          ensures r[i].id != r[j].id
        {
          if i > 0 && j > 0 {
            assert r[i] == rest[i - 1] && r[j] == rest[j - 1];
          } else if i == 0 {
            assert r[j] == rest[j - 1];
          } else {
            assert r[i] == rest[i - 1];
          }
        }
      }
    }
  }

  /** Dropping items keeps the invariant. */
  lemma FilterKeepsWellFormed(ts: seq<Todo>, p: Todo -> bool, counter: int)
    requires WellFormed(ts, counter)
    ensures WellFormed(Filter(ts, p), counter)
  {
    FilterKeepsUniqueIds(ts, p);
  }

  /** Appending an item with the current counter as id, then incrementing the counter, keeps the invariant. */
  lemma AppendKeepsWellFormed(ts: seq<Todo>, counter: int, title: string)
    requires WellFormed(ts, counter)
    ensures WellFormed(ts + [Todo(counter, false, title)], counter + 1)
  {
    var r := ts + [Todo(counter, false, title)];
    forall i, j | 0 <= i < |r| && 0 <= j < |r| && i != j
      ensures r[i].id != r[j].id
    {
      if i < |ts| { assert ts[i] in ts; }
      if j < |ts| { assert ts[j] in ts; }
    }
  }

  // ------------------------------------------------------------- in-place edits

  /** An item with the fields present in `p` written over its own. */
  function Merge(t: Todo, p: TodoPatch): Todo {
    Todo(p.id, p.completed.GetOr(t.completed), p.title.GetOr(t.title))
  }

  /**
   * `editTodo`: every item whose id is `p.id` gets the fields present in `p`;
   * every other item, and the length and order, stay as they were.
   */
  function Patch(ts: seq<Todo>, p: TodoPatch): (r: seq<Todo>)
    ensures |r| == |ts|
    ensures forall i :: 0 <= i < |ts| ==> r[i] == if ts[i].id == p.id then Merge(ts[i], p) else ts[i]
  {
    if ts == [] then []
    else [if ts[0].id == p.id then Merge(ts[0], p) else ts[0]] + Patch(ts[1..], p)
  }

  /** With distinct ids, an edit of an id at index `k` is a single-element update. */
  lemma PatchUpdatesOne(ts: seq<Todo>, p: TodoPatch, k: nat)
    requires UniqueIds(ts) && k < |ts| && ts[k].id == p.id
    ensures Patch(ts, p) == ts[k := Merge(ts[k], p)]
  {
  }

  /** An edit of an id no item has changes nothing. */
  lemma PatchAbsent(ts: seq<Todo>, p: TodoPatch)
    requires forall t :: t in ts ==> t.id != p.id
    ensures Patch(ts, p) == ts
  {
    var r := Patch(ts, p);
    forall i | 0 <= i < |ts| ensures r[i] == ts[i] {
      assert ts[i] in ts;
    }
  }

  /** An edit never changes an id, so it keeps the invariant. */
  lemma PatchKeepsWellFormed(ts: seq<Todo>, p: TodoPatch, counter: int)
    requires WellFormed(ts, counter)
    ensures WellFormed(Patch(ts, p), counter)
  {
    var r := Patch(ts, p);
    forall t | t in r ensures 1 <= t.id < counter {
      var i :| 0 <= i < |r| && r[i] == t;
      assert ts[i] in ts;
    }
  }

  /**
   * `toggleAll(completed)`: every item whose `completed` differs gets
   * `completed`; so afterwards every item has it, with ids, titles, order and
   * length as before.
   */
  function SetAllCompleted(ts: seq<Todo>, completed: bool): (r: seq<Todo>)
    ensures |r| == |ts|
    ensures forall i :: 0 <= i < |ts| ==> r[i] == ts[i].(completed := completed)
  {
    if ts == [] then []
    else [if ts[0].completed != completed then ts[0].(completed := completed) else ts[0]]
         + SetAllCompleted(ts[1..], completed)
  }

  lemma SetAllCompletedKeepsWellFormed(ts: seq<Todo>, completed: bool, counter: int)
    requires WellFormed(ts, counter)
    ensures WellFormed(SetAllCompleted(ts, completed), counter)
  {
    var r := SetAllCompleted(ts, completed);
    forall t | t in r ensures 1 <= t.id < counter {
      var i :| 0 <= i < |r| && r[i] == t;
      assert ts[i] in ts;
    }
  }

  // ------------------------------------------------------------- derived views

  /** `remainingCount`: the length of the list minus the number of completed items. */
  function RemainingCount(ts: seq<Todo>): (n: nat)
    ensures n <= |ts|
  {
    |ts| - |Filter(ts, IsDone)|
  }

  /** The remaining count is the number of active items. */
  lemma RemainingIsActive(ts: seq<Todo>)
    ensures RemainingCount(ts) == |Filter(ts, IsActive)|
  {
    ActiveDonePartition(ts);
  }

  /** The toggle-all box is checked (`!remainingCount()`) exactly when every item is completed. */
  lemma NoneRemainingIff(ts: seq<Todo>)
    ensures RemainingCount(ts) == 0 <==> forall t :: t in ts ==> t.completed
  {
    RemainingIsActive(ts);
    var a := Filter(ts, IsActive);
    if a != [] {
      assert a[0] in a;
    }
  }

  /** Every item is active exactly when the remaining count is the length of the list. */
  lemma AllRemainingIff(ts: seq<Todo>)
    ensures RemainingCount(ts) == |ts| <==> forall t :: t in ts ==> !t.completed
  {
    var d := Filter(ts, IsDone);
    if d != [] {
      assert d[0] in d;
    }
  }

  /** Adding an item (which starts active) raises the remaining count by one. */
  lemma AppendActiveRemaining(ts: seq<Todo>, t: Todo)
    requires !t.completed
    ensures RemainingCount(ts + [t]) == RemainingCount(ts) + 1
  {
    FilterAppend(ts, [t], IsDone);
  }

  /** `clearCompleted`: keep the active items. */
  function ClearCompleted(ts: seq<Todo>): (r: seq<Todo>)
    ensures forall t :: t in r <==> t in ts && !t.completed
  {
    Filter(ts, IsActive)
  }

  /** Clearing the completed items keeps them in order and leaves the remaining count as it was. */
  lemma ClearCompletedKeepsRemaining(ts: seq<Todo>)
    ensures IsSubsequence(ClearCompleted(ts), ts)
    ensures RemainingCount(ClearCompleted(ts)) == RemainingCount(ts) == |ClearCompleted(ts)|
  {
    FilterIsSubsequence(ts, IsActive);
    RemainingIsActive(ts);
    FilterDropsAll(ClearCompleted(ts), IsDone);
  }

  /**
   * The clear-completed button is shown (`remainingCount() !== todos.length`)
   * exactly when clearing would change the list.
   */
  lemma ClearCompletedChangesIff(ts: seq<Todo>)
    ensures RemainingCount(ts) != |ts| <==> ClearCompleted(ts) != ts
  {
    AllRemainingIff(ts);
    if forall t :: t in ts ==> !t.completed {
      FilterKeepsAll(ts, IsActive);
    } else {
      var t :| t in ts && t.completed;
      assert t !in ClearCompleted(ts);
    }
  }

  /** After toggle-all the remaining count is 0 when completing and the full length when reopening. */
  lemma SetAllCompletedRemaining(ts: seq<Todo>, completed: bool)
    ensures RemainingCount(SetAllCompleted(ts, completed)) == if completed then 0 else |ts|
  {
    var r := SetAllCompleted(ts, completed);
    forall t | t in r ensures t.completed == completed {
      var i :| 0 <= i < |r| && r[i] == t;
    }
    NoneRemainingIff(r);
    AllRemainingIff(r);
  }
}
