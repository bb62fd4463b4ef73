/** The task store of storage.js. Every operation there reads the whole
    persisted array, transforms it and writes it back; here each is a pure
    function from the old sequence of tasks to the new one (plus the value
    the JavaScript function returns). Ids, the current timestamp and today's
    date come in as parameters. */
module TodoStore {
  import opened Wrappers
  import opened Text
  import opened Seqs
  import opened Dates

  const MAX_TEXT: nat := 100
  const DEFAULT_CATEGORY := "직장"
  const DEFAULT_PRIORITY := "중간"

  /** One task record. `createdAt`/`completedAt` hold ISO timestamps and
      `lastResetDate` a 'YYYY-MM-DD' string, exactly as persisted. */
  datatype Todo = Todo(
    id: string,
    text: string,
    category: string,
    priority: string,
    completed: bool,
    createdAt: string,
    completedAt: Option<string>,
    isRecurring: bool,
    lastResetDate: Option<string>)

  /** The argument of `addTodo`; `None` is a missing or `undefined` field. */
  datatype TodoInput = TodoInput(
    text: Option<string>,
    category: Option<string>,
    priority: Option<string>,
    isRecurring: bool)

  /** The argument of `updateTodo`: the keys the caller supplied. */
  datatype TodoPatch = TodoPatch(
    id: Option<string>,
    text: Option<string>,
    category: Option<string>,
    priority: Option<string>,
    completed: Option<bool>,
    createdAt: Option<string>,
    completedAt: Option<Option<string>>,
    isRecurring: Option<bool>,
    lastResetDate: Option<Option<string>>)

  /** What `updateTodo` and `toggleTodo` leave behind: the new collection and
      the record they return (`None` for JavaScript `null`). */
  datatype Change = Change(todos: seq<Todo>, todo: Option<Todo>)

  /** JavaScript `value || fallback` on a string field: a missing or empty
      string falls back. */
  function OrDefault(value: Option<string>, fallback: string): (r: string)
    ensures value.Some? && value.value != "" ==> r == value.value
    ensures value.None? || value.value == "" ==> r == fallback
  {
    if value.Some? && value.value != "" then value.value else fallback
  }

  predicate HasId(todos: seq<Todo>, id: string) {
    exists i :: 0 <= i < |todos| && todos[i].id == id
  }

  /** `findIndex` by id: the first position holding `id`. */
  function FirstIndex(todos: seq<Todo>, id: string): (r: Option<nat>)
    ensures r.None? <==> !HasId(todos, id)
    ensures r.Some? ==> r.value < |todos| && todos[r.value].id == id
    ensures r.Some? ==> forall j :: 0 <= j < r.value ==> todos[j].id != id
    decreases |todos|
  {
    if |todos| == 0 then None
    else if todos[0].id == id then Some(0)
    else
      match FirstIndex(todos[1..], id)
      case None => None
      case Some(k) => Some(k + 1)
  }

  // ---------------------------------------------------------------------
  // addTodo
  // ---------------------------------------------------------------------

  /** `addTodo(todoData)` with generated `id`, the clock reading `now` and the
      calendar day `today`: appends one new record and changes nothing else. */
  function AddTodo(todos: seq<Todo>, input: TodoInput, id: string, today: Date, now: string): (r: seq<Todo>)
    ensures |r| == |todos| + 1 && r[..|todos|] == todos
    ensures var t := r[|todos|];
      && t.id == id
      && |t.text| <= MAX_TEXT
      && t.text == Take(input.text.GetOr(""), MAX_TEXT)
      && t.category == OrDefault(input.category, DEFAULT_CATEGORY)
      && t.priority == OrDefault(input.priority, DEFAULT_PRIORITY)
      && !t.completed && t.completedAt == None
      && t.createdAt == now
      && t.isRecurring == input.isRecurring
      && t.lastResetDate == (if input.isRecurring then Some(FormatDate(today)) else None)
  {
    var todo := Todo(
      id,
      Take(input.text.GetOr(""), MAX_TEXT),
      OrDefault(input.category, DEFAULT_CATEGORY),
      OrDefault(input.priority, DEFAULT_PRIORITY),
      false,
      now,
      None,
      input.isRecurring,
      if input.isRecurring then Some(FormatDate(today)) else None);
    todos + [todo]
  }

  // ---------------------------------------------------------------------
  // updateTodo
  // ---------------------------------------------------------------------

  /** `{ ...t, ...patch }`. */
  function Merge(t: Todo, p: TodoPatch): Todo {
    Todo(
      p.id.GetOr(t.id), p.text.GetOr(t.text), p.category.GetOr(t.category),
      p.priority.GetOr(t.priority), p.completed.GetOr(t.completed),
      p.createdAt.GetOr(t.createdAt), p.completedAt.GetOr(t.completedAt),
      p.isRecurring.GetOr(t.isRecurring), p.lastResetDate.GetOr(t.lastResetDate))
  }

  /** `u` carries the supplied fields of `p` and `t`'s value for every other. */
  predicate Overlays(t: Todo, p: TodoPatch, u: Todo) {
    && u.id == (if p.id.Some? then p.id.value else t.id)
    && u.text == (if p.text.Some? then p.text.value else t.text)
    && u.category == (if p.category.Some? then p.category.value else t.category)
    && u.priority == (if p.priority.Some? then p.priority.value else t.priority)
    && u.completed == (if p.completed.Some? then p.completed.value else t.completed)
    && u.createdAt == (if p.createdAt.Some? then p.createdAt.value else t.createdAt)
    && u.completedAt == (if p.completedAt.Some? then p.completedAt.value else t.completedAt)
    && u.isRecurring == (if p.isRecurring.Some? then p.isRecurring.value else t.isRecurring)
    && u.lastResetDate == (if p.lastResetDate.Some? then p.lastResetDate.value else t.lastResetDate)
  }

  /** `updateTodo(id, updates)`. */
  function UpdateTodo(todos: seq<Todo>, id: string, patch: TodoPatch): (r: Change)
    ensures r.todo.None? <==> !HasId(todos, id)
    ensures r.todo.None? ==> r.todos == todos
    ensures |r.todos| == |todos|
    ensures r.todo.Some? ==>
      var i := FirstIndex(todos, id).value;
      && r.todos[i] == r.todo.value
      && Overlays(todos[i], patch, r.todo.value)
      && (forall j :: 0 <= j < |todos| && j != i ==> r.todos[j] == todos[j])
  {
    match FirstIndex(todos, id)
    case None => Change(todos, None)
    case Some(i) =>
      var u := Merge(todos[i], patch);
      Change(todos[i := u], Some(u))
  }

  // ---------------------------------------------------------------------
  // deleteTodo, clearCompleted
  // ---------------------------------------------------------------------

  /** `deleteTodo(id)`: `filter(t => t.id !== id)`. */
  function DeleteTodo(todos: seq<Todo>, id: string): (r: seq<Todo>)
    ensures forall i :: 0 <= i < |r| ==> r[i].id != id && r[i] in todos
    ensures forall i :: 0 <= i < |todos| && todos[i].id != id ==> todos[i] in r
    ensures IsSubsequence(r, todos)
    ensures |r| == |todos| - CountWhere(todos, (t: Todo) => t.id == id)
    ensures !HasId(todos, id) ==> r == todos
  {
    var r := Filter(todos, (t: Todo) => t.id != id);
    CountComplement(todos, (t: Todo) => t.id != id, (t: Todo) => t.id == id);
    r
  }

  /** Deleting the same id twice is deleting it once. */
  lemma DeleteTodoIdempotent(todos: seq<Todo>, id: string)
    ensures DeleteTodo(DeleteTodo(todos, id), id) == DeleteTodo(todos, id)
  {
    var r := DeleteTodo(todos, id);
    assert !HasId(r, id);
  }

  /** `clearCompleted()`: keeps the incomplete records in order. */
  function ClearCompleted(todos: seq<Todo>): (r: seq<Todo>)
    ensures forall i :: 0 <= i < |r| ==> !r[i].completed && r[i] in todos
    ensures forall i :: 0 <= i < |todos| && !todos[i].completed ==> todos[i] in r
    ensures IsSubsequence(r, todos)
    ensures |r| == |todos| - CompletedCount(todos)
  {
    var r := Filter(todos, (t: Todo) => !t.completed);
    CompletedCountIsCountWhere(todos);
    CountComplement(todos, (t: Todo) => !t.completed, (t: Todo) => t.completed);
    r
  }

  // ---------------------------------------------------------------------
  // toggleTodo
  // ---------------------------------------------------------------------

  /** `toggleTodo(id)` at clock reading `now`. */
  function ToggleTodo(todos: seq<Todo>, id: string, now: string): (r: Change)
    ensures r.todo.None? <==> !HasId(todos, id)
    ensures r.todo.None? ==> r.todos == todos
    ensures |r.todos| == |todos|
    ensures r.todo.Some? ==>
      var i := FirstIndex(todos, id).value;
      var t := r.todo.value;
      && r.todos[i] == t
      && t.completed == !todos[i].completed
      && (t.completedAt.Some? <==> t.completed)
      && (t.completed ==> t.completedAt == Some(now))
      && t.(completed := todos[i].completed, completedAt := todos[i].completedAt) == todos[i]
      && (forall j :: 0 <= j < |todos| && j != i ==> r.todos[j] == todos[j])
  {
    match FirstIndex(todos, id)
    case None => Change(todos, None)
    case Some(i) =>
      var done := !todos[i].completed;
      var u := todos[i].(completed := done, completedAt := if done then Some(now) else None);
      Change(todos[i := u], Some(u))
  }

  /** A record whose completion stamp is present exactly when it is done. */
  predicate Stamped(t: Todo) {
    t.completed <==> t.completedAt.Some?
  }

  /** Toggling an open record twice gives it back unchanged. */
  lemma ToggleTwiceRestores(todos: seq<Todo>, id: string, now1: string, now2: string)
    requires HasId(todos, id)
    requires var i := FirstIndex(todos, id).value; !todos[i].completed && Stamped(todos[i])
    ensures ToggleTodo(ToggleTodo(todos, id, now1).todos, id, now2).todos == todos
  {
    var i := FirstIndex(todos, id).value;
    var once := ToggleTodo(todos, id, now1).todos;
    assert once[i].id == id;
    assert FirstIndex(once, id) == Some(i);
  }

  // ---------------------------------------------------------------------
  // resetRecurringTodos
  // ---------------------------------------------------------------------

  /** A recurring record last reset on another day than `day`. */
  predicate NeedsReset(t: Todo, day: string) {
    t.isRecurring && t.lastResetDate != Some(day)
  }

  function ResetOne(t: Todo, day: string): Todo {
    if NeedsReset(t, day) then t.(completed := false, completedAt := None, lastResetDate := Some(day))
    else t
  }

  datatype Reset = Reset(todos: seq<Todo>, changed: bool)

  /** `resetRecurringTodos()` run on calendar day `today`. */
  function ResetRecurringTodos(todos: seq<Todo>, today: Date): (r: Reset)
    ensures |r.todos| == |todos|
    ensures forall i :: 0 <= i < |todos| && todos[i].isRecurring ==>
      r.todos[i].lastResetDate == Some(FormatDate(today))
    ensures forall i :: 0 <= i < |todos| && NeedsReset(todos[i], FormatDate(today)) ==>
      !r.todos[i].completed && r.todos[i].completedAt == None
      && r.todos[i].(completed := todos[i].completed, completedAt := todos[i].completedAt,
                     lastResetDate := todos[i].lastResetDate) == todos[i]
    ensures forall i :: 0 <= i < |todos| && !NeedsReset(todos[i], FormatDate(today)) ==>
      r.todos[i] == todos[i]
    ensures r.changed <==> exists i :: 0 <= i < |todos| && NeedsReset(todos[i], FormatDate(today))
    ensures r.changed <==> r.todos != todos
  {
    var day := FormatDate(today);
    var out := seq(|todos|, i requires 0 <= i < |todos| => ResetOne(todos[i], day));
    var changed := exists i :: 0 <= i < |todos| && NeedsReset(todos[i], day);
    ResetChangesSomething(todos, day, out);
    Reset(out, changed)
  }

  lemma ResetChangesSomething(todos: seq<Todo>, day: string, out: seq<Todo>)
    requires |out| == |todos|
    requires forall i :: 0 <= i < |todos| ==> out[i] == ResetOne(todos[i], day)
    ensures out != todos <==> exists i :: 0 <= i < |todos| && NeedsReset(todos[i], day)
  {
    if exists i :: 0 <= i < |todos| && NeedsReset(todos[i], day) {
      var k :| 0 <= k < |todos| && NeedsReset(todos[k], day);
      assert out[k].lastResetDate != todos[k].lastResetDate;
    } else {
      assert out == todos;
    }
  }

  /** A second reset on the same day finds nothing to do. */
  lemma ResetTwiceSameDay(todos: seq<Todo>, today: Date)
    ensures var once := ResetRecurringTodos(todos, today).todos;
      var twice := ResetRecurringTodos(once, today);
      !twice.changed && twice.todos == once
  {
    var once := ResetRecurringTodos(todos, today).todos;
    forall i | 0 <= i < |once|
      ensures !NeedsReset(once[i], FormatDate(today))
    {
      if todos[i].isRecurring {
        assert once[i].lastResetDate == Some(FormatDate(today));
      } else {
        assert once[i] == todos[i];
      }
    }
  }

  // ---------------------------------------------------------------------
  // getStats
  // ---------------------------------------------------------------------

  function CompletedCount(todos: seq<Todo>): (n: nat)
    ensures n <= |todos|
    decreases |todos|
  {
    if |todos| == 0 then 0 else (if todos[0].completed then 1 else 0) + CompletedCount(todos[1..])
  }

  lemma {:induction false} CompletedCountIsCountWhere(todos: seq<Todo>)
    ensures CompletedCount(todos) == CountWhere(todos, (t: Todo) => t.completed)
    decreases |todos|
  {
    if |todos| > 0 {
      CompletedCountIsCountWhere(todos[1..]);
    }
  }

  datatype Stats = Stats(total: nat, completed: nat, remaining: int, percentage: int)

  /** `Math.round(100 * completed / total)` with halves rounded up, computed
      exactly on rationals. */
  function RoundedPercent(completed: nat, total: nat): (p: int)
    requires 0 < total && completed <= total
    ensures 0 <= p <= 100
    ensures 2 * total * p <= 200 * completed + total < 2 * total * (p + 1)
  {
    var num, den := 200 * completed + total, 2 * total;
    QuotientBounds(num, den);
    num / den
  }

  lemma QuotientBounds(num: int, den: int)
    requires 0 < den && 0 <= num < 101 * den
    ensures 0 <= num / den <= 100
    ensures den * (num / den) <= num < den * (num / den + 1)
  {
    var p := num / den;
    assert num == den * p + num % den;
  }

  /** `getStats()`. */
  function GetStats(todos: seq<Todo>): (s: Stats)
    ensures s.total == |todos|
    ensures s.completed == CountWhere(todos, (t: Todo) => t.completed)
    ensures s.completed + s.remaining == s.total
    ensures 0 <= s.remaining
    ensures 0 <= s.percentage <= 100
    ensures s.total == 0 ==> s.percentage == 0
    ensures s.total > 0 ==>
      2 * s.total * s.percentage <= 200 * s.completed + s.total < 2 * s.total * (s.percentage + 1)
  {
    CompletedCountIsCountWhere(todos);
    var total := |todos|;
    var done := CompletedCount(todos);
    Stats(total, done, total - done, if total == 0 then 0 else RoundedPercent(done, total))
  }

  /** After `clearCompleted` nothing is done, and the total is what remained. */
  lemma StatsAfterClear(todos: seq<Todo>)
    ensures GetStats(ClearCompleted(todos)).completed == 0
    ensures GetStats(ClearCompleted(todos)).total == GetStats(todos).remaining
  {
    var r := ClearCompleted(todos);
    NoneCompleted(r);
  }

  lemma {:induction false} NoneCompleted(todos: seq<Todo>)
    requires forall i :: 0 <= i < |todos| ==> !todos[i].completed
    ensures CountWhere(todos, (t: Todo) => t.completed) == 0
    decreases |todos|
  {
    if |todos| > 0 {
      NoneCompleted(todos[1..]);
    }
  }

  // ---------------------------------------------------------------------
  // Collection invariants
  // ---------------------------------------------------------------------

  predicate AllStamped(todos: seq<Todo>) {
    forall i :: 0 <= i < |todos| ==> Stamped(todos[i])
  }

  /** Every operation except the free-form `updateTodo` keeps completion
      stamps consistent with completion. */
  lemma StampedPreserved(todos: seq<Todo>, input: TodoInput, id: string, today: Date, now: string)
    requires AllStamped(todos)
    ensures AllStamped(AddTodo(todos, input, id, today, now))
    ensures AllStamped(ToggleTodo(todos, id, now).todos)
    ensures AllStamped(ResetRecurringTodos(todos, today).todos)
  {
    var r := AddTodo(todos, input, id, today, now);
    assert forall i :: 0 <= i < |todos| ==> r[i] == todos[i];
  }

  /** Removing tasks keeps the remaining stamps consistent. */
  lemma StampedFiltered(todos: seq<Todo>, id: string)
    requires AllStamped(todos)
    ensures AllStamped(DeleteTodo(todos, id))
    ensures AllStamped(ClearCompleted(todos))
  {
    var d := DeleteTodo(todos, id);
    assert forall i :: 0 <= i < |d| ==> d[i] in todos;
    var c := ClearCompleted(todos);
    assert forall i :: 0 <= i < |c| ==> c[i] in todos;
  }

  predicate UniqueIds(todos: seq<Todo>) {
    forall i, j :: 0 <= i < j < |todos| ==> todos[i].id != todos[j].id
  }

  /** A fresh id keeps ids unique; toggling and resetting never touch ids. */
  lemma UniqueIdsPreserved(todos: seq<Todo>, input: TodoInput, id: string, today: Date, now: string)
    requires UniqueIds(todos)
    ensures !HasId(todos, id) ==> UniqueIds(AddTodo(todos, input, id, today, now))
    ensures UniqueIds(ToggleTodo(todos, id, now).todos)
    ensures UniqueIds(ResetRecurringTodos(todos, today).todos)
  {
    var r := AddTodo(todos, input, id, today, now);
    assert forall i :: 0 <= i < |todos| ==> r[i] == todos[i];
  }
}
