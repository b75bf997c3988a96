/**
 * The to-do store of the application component: its state, the operations the
 * view dispatches, the filter chosen by the URL fragment, and the derived
 * views the view renders.
 */
module App {
  import opened Wrappers
  import opened TodosInterface
  import opened Text
  import opened TodoList

  /** The state the store starts from when nothing was persisted. */
  const DefaultStore := Snapshot(1, [], "all", None)

  // ------------------------------------------------------------ filter modes

  /** The three filters the footer offers. */
  datatype ShowMode = All | Active | Completed

  /** The value of `showMode` that selects each filter link. */
  function ModeName(m: ShowMode): string {
    match m
    case All => "all"
    case Active => "active"
    case Completed => "completed"
  }

  /** The URL fragment each filter link points to. */
  function Href(m: ShowMode): string {
    match m
    case All => "#/"
    case Active => "#/active"
    case Completed => "#/completed"
  }

  /** How `filterList` reads `showMode`: "active", "completed", and anything else shows all. */
  function Classify(mode: string): (m: ShowMode)
    ensures m == Active <==> mode == "active"
    ensures m == Completed <==> mode == "completed"
  {
    if mode == "active" then Active
    else if mode == "completed" then Completed
    else All
  }

  /**
   * `locationHandler`'s mapping: the fragment without its first two
   * characters ("#/"), or "all" when nothing is left. Any other string is
   * stored as it is.
   */
  function HashToMode(hash: string): (mode: string)
    ensures mode != []
    ensures |hash| > 2 ==> mode == hash[2..]
    ensures |hash| <= 2 ==> mode == "all"
  {
    var rest := if |hash| < 2 then [] else hash[2..];
    if rest == [] then "all" else rest
  }

  /** Following a filter link stores the mode that selects that link and that filters as the link says. */
  lemma FollowLink(m: ShowMode)
    ensures HashToMode(Href(m)) == ModeName(m)
    ensures Classify(HashToMode(Href(m))) == m
  {
    match m
    case All =>
    case Active => assert Href(m)[2..] == "active";
    case Completed => assert Href(m)[2..] == "completed";
  }

  /**
   * `filterList`: the active items for "active", the completed items for
   * "completed", and the list unchanged for every other mode; always in
   * the original order.
   */
  function FilterList(ts: seq<Todo>, mode: string): (r: seq<Todo>)
    ensures IsSubsequence(r, ts)
    ensures Classify(mode) == All ==> r == ts
    ensures Classify(mode) == Active ==> forall t :: t in r <==> t in ts && !t.completed
    ensures Classify(mode) == Completed ==> forall t :: t in r <==> t in ts && t.completed
  {
    FilterIsSubsequence(ts, IsActive);
    FilterIsSubsequence(ts, IsDone);
    SubsequenceOfSelf(ts);
    match Classify(mode)
    case Active => Filter(ts, IsActive)
    case Completed => Filter(ts, IsDone)
    case All => ts
  }

  /** The active and completed views split the list; the active view has `remainingCount` items. */
  lemma FilterListSplit(ts: seq<Todo>)
    ensures |FilterList(ts, "active")| + |FilterList(ts, "completed")| == |ts|
    ensures |FilterList(ts, "active")| == RemainingCount(ts)
  {
    ActiveDonePartition(ts);
    RemainingIsActive(ts);
  }

  /** Every title is trimmed (see `IsTrimmedIff`): what `addTodo` alone would ever store. */
  ghost predicate TitlesTrimmed(ts: seq<Todo>) {
    forall i :: 0 <= i < |ts| ==> IsTrimmed(ts[i].title)
  }

  /** Neither end of `s` is white space. */
  predicate IsTrimmed(s: string) {
    s == [] || (!IsWhitespace(s[0]) && !IsWhitespace(s[|s| - 1]))
  }

  /** A string has white space at neither end exactly when it is its own trim. */
  lemma IsTrimmedIff(s: string)
    ensures IsTrimmed(s) <==> Trim(s) == s
  {
    if IsTrimmed(s) && s != [] {
      assert TrimStart(s) == s;
      assert TrimEnd(s) == s;
    }
  }

  /** Appending an item whose title was trimmed keeps every title trimmed. */
  lemma AppendTrimmedTitle(ts: seq<Todo>, id: int, value: string)
    ensures TitlesTrimmed(ts) ==> TitlesTrimmed(ts + [Todo(id, false, Trim(value))])
  {
    var added := Todo(id, false, Trim(value));
    assert IsTrimmed(added.title);
    if TitlesTrimmed(ts) {
      var r := ts + [added];
      forall i | 0 <= i < |r| ensures IsTrimmed(r[i].title) {
        if i < |ts| {
          assert r[i] == ts[i];
        }
      }
    }
  }

  /** What appending a new item keeps: the store invariant and trimmed titles. */
  lemma AppendKeepsStoreFacts(ts: seq<Todo>, counter: int, value: string)
    ensures WellFormed(ts, counter) ==> WellFormed(ts + [Todo(counter, false, Trim(value))], counter + 1)
    ensures TitlesTrimmed(ts) ==> TitlesTrimmed(ts + [Todo(counter, false, Trim(value))])
  {
    if WellFormed(ts, counter) {
      AppendKeepsWellFormed(ts, counter, Trim(value));
    }
    AppendTrimmedTitle(ts, counter, value);
  }

  /**
   * `save` can break what `addTodo` keeps: on a list of trimmed titles, saving
   * `" x "` for the item being edited passes the blank check and stores the
   * title with its spaces, so the titles are no longer all trimmed.
   */
  lemma SaveCanLeaveTitleUntrimmed()
    ensures var ts := [Todo(1, false, "x")];
            var saved := Patch(ts, TodoPatch(1, None, Some(" x ")));
            && TitlesTrimmed(ts)
            && Trim(" x ") != []
            && saved == [Todo(1, false, " x ")]
            && !TitlesTrimmed(saved)
  {
    TrimPaddedX();
    var ts := [Todo(1, false, "x")];
    assert IsTrimmed(ts[0].title);
    var saved := Patch(ts, TodoPatch(1, None, Some(" x ")));
    assert saved[0].title == " x " && IsWhitespace(" x "[0]);
  }

  /** The witness: `" x "` trims to `"x"`. */
  lemma TrimPaddedX()
    ensures Trim(" x ") == "x"
  {
    var padded, inner := " x ", "x ";
    assert padded[1..] == inner && inner[..1] == "x";
    assert IsWhitespace(padded[0]) && !IsWhitespace(inner[0]);
    assert TrimStart(inner) == inner;
    assert TrimStart(padded) == inner;
    assert IsWhitespace(inner[1]);
    assert TrimEnd("x") == "x";
    assert TrimEnd(inner) == "x";
  }

  // ------------------------------------------------------------------ the store

  class TodoStore {
    var counter: int
    var todos: seq<Todo>
    var showMode: string
    var editingTodoId: Option<int>

    /** The whole state as one value (what is persisted). */
    function State(): Snapshot
      reads this
    {
      Snapshot(counter, todos, showMode, editingTodoId)
    }

    /** Ids are distinct and each is in `[1, counter)`. */
    ghost predicate Valid()
      reads this
    {
      WellFormed(todos, counter)
    }

    /** No item is in editing mode: `editingTodoId` matches no id. */
    ghost predicate EditingNone()
      reads this
    {
      forall t :: t in todos ==> editingTodoId != Some(t.id)
    }

    /** Start from the persisted state when there is one, otherwise from the default store. */
    constructor (stored: Option<Snapshot>)
      ensures State() == stored.GetOr(DefaultStore)
      ensures stored == None ==> Valid() && EditingNone()
    {
      var s := stored.GetOr(DefaultStore);
      counter, todos, showMode, editingTodoId := s.counter, s.todos, s.showMode, s.editingTodoId;
    }

    /**
     * `addTodo`: on "Enter" with a title that is not blank after trimming,
     * append an active item carrying the trimmed title and the counter as id,
     * and increment the counter; otherwise change nothing.
     */
    method AddTodo(value: string, keyCode: string)
      modifies this
      ensures var title := Trim(value);
              State() == if keyCode == "Enter" && title != []
                         then old(State()).(todos := old(todos) + [Todo(old(counter), false, title)],
                                            counter := old(counter) + 1)
                         else old(State())
      ensures old(Valid()) ==> Valid()
      ensures old(TitlesTrimmed(todos)) ==> TitlesTrimmed(todos)
    {
      var title := Trim(value);
      if keyCode == "Enter" && title != [] {
        AppendKeepsStoreFacts(todos, counter, value);
        todos, counter := todos + [Todo(counter, false, title)], counter + 1;
      }
    }

    /** `removeTodo`: drop every item whose id is `todoId`, keeping the rest in order. */
    method RemoveTodo(todoId: int)
      modifies this
      ensures State() == old(State()).(todos := Filter(old(todos), OtherThan(todoId)))
      ensures old(Valid()) ==> Valid()
    {
      if Valid() {
        FilterKeepsWellFormed(todos, OtherThan(todoId), counter);
      }
      todos := Filter(todos, OtherThan(todoId));
    }

    /** `editTodo`: write the fields present in `patch` into the item(s) with its id. */
    method EditTodo(patch: TodoPatch)
      modifies this
      ensures State() == old(State()).(todos := Patch(old(todos), patch))
      ensures old(Valid()) ==> Valid()
    {
      if Valid() {
        PatchKeepsWellFormed(todos, patch, counter);
      }
      todos := Patch(todos, patch);
    }

    /** `clearCompleted`: keep only the active items, in order. */
    method ClearCompleted()
      modifies this
      ensures State() == old(State()).(todos := TodoList.ClearCompleted(old(todos)))
      ensures old(Valid()) ==> Valid()
    {
      if Valid() {
        FilterKeepsWellFormed(todos, IsActive, counter);
      }
      todos := TodoList.ClearCompleted(todos);
    }

    /** `toggleAll`: give every item `completed`. */
    method ToggleAll(completed: bool)
      modifies this
      ensures State() == old(State()).(todos := SetAllCompleted(old(todos), completed))
      ensures old(Valid()) ==> Valid()
    {
      if Valid() {
        SetAllCompletedKeepsWellFormed(todos, completed, counter);
      }
      todos := SetAllCompleted(todos, completed);
    }

    /** `setEditing`: put the item with id `todoId` (or, for -1, none) in editing mode. */
    method SetEditing(todoId: int)
      modifies this
      ensures State() == old(State()).(editingTodoId := Some(todoId))
      ensures Valid() == old(Valid())
    {
      editingTodoId := Some(todoId);
    }

    /** `toggle`: set `completed` of the item(s) with id `todoId`, leaving their titles. */
    method Toggle(todoId: int, checked: bool)
      modifies this
      ensures State() == old(State()).(todos := Patch(old(todos), TodoPatch(todoId, Some(checked), None)))
      ensures old(Valid()) ==> Valid()
    {
      EditTodo(TodoPatch(todoId, Some(checked), None));
    }

    /**
     * `save`: when item `id` is the one being edited and `value` is not blank
     * after trimming, store `value` itself (untrimmed) as its title and leave
     * editing mode (-1); otherwise change nothing.
     */
    method Save(id: int, value: string)
      modifies this
      ensures State() == if old(editingTodoId) == Some(id) && Trim(value) != []
                         then old(State()).(todos := Patch(old(todos), TodoPatch(id, None, Some(value))),
                                            editingTodoId := Some(-1))
                         else old(State())
      ensures old(Valid()) ==> Valid()
      ensures old(Valid()) && old(editingTodoId) == Some(id) && Trim(value) != [] ==> EditingNone()
    {
      if editingTodoId == Some(id) && Trim(value) != [] {
        EditTodo(TodoPatch(id, None, Some(value)));
        SetEditing(-1);
      }
    }

    /** `doneEditing`: "Enter" saves, "Escape" leaves editing mode (-1), any other key does nothing. */
    method DoneEditing(todoId: int, keyCode: string, value: string)
      modifies this
      ensures keyCode == "Enter" ==>
                State() == if old(editingTodoId) == Some(todoId) && Trim(value) != []
                           then old(State()).(todos := Patch(old(todos), TodoPatch(todoId, None, Some(value))),
                                              editingTodoId := Some(-1))
                           else old(State())
      ensures keyCode == "Escape" ==> State() == old(State()).(editingTodoId := Some(-1))
      ensures keyCode != "Enter" && keyCode != "Escape" ==> State() == old(State())
      ensures old(Valid()) ==> Valid()
      ensures old(Valid()) && keyCode == "Escape" ==> EditingNone()
    {
      if keyCode == "Enter" {
        Save(todoId, value);
      } else if keyCode == "Escape" {
        SetEditing(-1);
      }
    }

    /** `locationHandler`: store the mode the new URL fragment names. */
    method LocationHandler(hash: string)
      modifies this
      ensures State() == old(State()).(showMode := HashToMode(hash))
      ensures Valid() == old(Valid())
    {
      showMode := HashToMode(hash);
    }

    /** The items the list shows under the current mode. */
    function Visible(): (r: seq<Todo>)
      reads this
      ensures IsSubsequence(r, todos)
    {
      FilterList(todos, showMode)
    }

    /** The footer's count of items left. */
    function Remaining(): (n: nat)
      reads this
      ensures n == |FilterList(todos, "active")|
    {
      FilterListSplit(todos);
      RemainingCount(todos)
    }
  }
}
