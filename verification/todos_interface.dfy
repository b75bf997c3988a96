/**
 * The records of the to-do application: one to-do item, a partial edit of an
 * item, and the persisted store.
 */
module TodosInterface {
  import opened Wrappers

  /** One to-do item. Ids are JavaScript numbers; the store only ever creates integers. */
  datatype Todo = Todo(id: int, completed: bool, title: string)

  /**
   * A partial edit of an item: the id is required, every other field is
   * optional and is written only when present.
   */
  datatype TodoPatch = TodoPatch(id: int, completed: Option<bool>, title: Option<string>)

  /**
   * The whole store. `showMode` holds whatever string the location handler
   * stored (normally "all", "active" or "completed"); `editingTodoId` is
   * `None` for null/undefined.
   */
  datatype Snapshot = Snapshot(counter: int, todos: seq<Todo>, showMode: string, editingTodoId: Option<int>)
}
