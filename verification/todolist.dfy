/** The list screen of app.js, without the DOM: the category filter, the
    order `render` draws the tasks in, and the guards that keep a blank
    entry from being added or saved. */
module TodoList {
  import opened Wrappers
  import opened Text
  import opened Seqs
  import opened Dates
  import opened TodoStore

  /** The filter tab that shows every category. */
  const ALL_FILTER := "전체"

  /** Sort position of each priority; lower sorts first. */
  const PRIORITY_ORDER: map<string, nat> := map["높음" := 0, "중간" := 1, "낮음" := 2]

  /** The tasks a filter tab shows, in storage order. */
  function FilterByCategory(todos: seq<Todo>, filter: string): (r: seq<Todo>)
    ensures filter == ALL_FILTER ==> r == todos
    ensures filter != ALL_FILTER ==> forall i :: 0 <= i < |r| ==> r[i].category == filter
    ensures forall i :: 0 <= i < |r| ==> r[i] in todos
    ensures forall i :: 0 <= i < |todos| && (filter == ALL_FILTER || todos[i].category == filter) ==> todos[i] in r
    ensures IsSubsequence(r, todos)
    ensures filter != ALL_FILTER ==> |r| == CountWhere(todos, (t: Todo) => t.category == filter)
  {
    if filter == ALL_FILTER then
      assert forall i :: 0 <= i < |todos| ==> todos[i] in todos;
      IsSubsequenceRefl(todos);
      todos
    else Filter(todos, (t: Todo) => t.category == filter)
  }

  lemma {:induction false} IsSubsequenceRefl(s: seq<Todo>)
    ensures IsSubsequence(s, s)
    decreases |s|
  {
    if |s| > 0 {
      IsSubsequenceRefl(s[1..]);
    }
  }

  // ---------------------------------------------------------------------
  // The comparator of `render`
  // ---------------------------------------------------------------------

  /** `PRIORITY_ORDER[p] || 1` as written: `||` also replaces the 0 of
      "높음", because 0 is falsy. */
  function PriorityKeyAsWritten(p: string): (k: nat)
    ensures k == 1 || k == 2
    ensures k == 2 <==> p == "낮음"
  {
    if p in PRIORITY_ORDER && PRIORITY_ORDER[p] != 0 then PRIORITY_ORDER[p] else 1
  }

  /** The evidently intended key, `PRIORITY_ORDER[p] ?? 1`: the table's own
      value, and 1 (medium) for a priority the table does not know. */
  function PriorityKey(p: string): (k: nat)
    ensures k <= 2
    ensures k == 0 <==> p == "높음"
    ensures k == 2 <==> p == "낮음"
  {
    if p in PRIORITY_ORDER then PRIORITY_ORDER[p] else 1
  }

  /** The comparator passed to `sort`, for a given priority key: unfinished
      tasks first, then by key. */
  function Compare(a: Todo, b: Todo, key: string -> nat): (c: int)
    ensures a.completed != b.completed ==> (c > 0 <==> a.completed) && c != 0
    ensures a.completed == b.completed ==>
      && (c < 0 <==> key(a.priority) < key(b.priority))
      && (c == 0 <==> key(a.priority) == key(b.priority))
  {
    if a.completed != b.completed then (if a.completed then 1 else -1)
    else key(a.priority) - key(b.priority)
  }

  /** One number that orders tasks the way `Compare` does. */
  function Rank(t: Todo, key: string -> nat): int {
    (if t.completed then 3 else 0) + key(t.priority)
  }

  /** For a key below 3, the comparator and the rank agree in sign, so
      sorting with the comparator is sorting by rank. */
  lemma CompareIsRankOrder(a: Todo, b: Todo, key: string -> nat)
    requires key(a.priority) <= 2 && key(b.priority) <= 2
    ensures Compare(a, b, key) < 0 <==> Rank(a, key) < Rank(b, key)
    ensures Compare(a, b, key) == 0 <==> Rank(a, key) == Rank(b, key)
    ensures Compare(a, b, key) > 0 <==> Rank(a, key) > Rank(b, key)
  {
  }

  function SortRank(t: Todo): int {
    Rank(t, PriorityKey)
  }

  function SortRankAsWritten(t: Todo): int {
    Rank(t, PriorityKeyAsWritten)
  }

  /** The tasks `render` draws, in drawing order, with the intended key. */
  function VisibleTodos(todos: seq<Todo>, filter: string): (r: seq<Todo>)
    ensures multiset(r) == multiset(FilterByCategory(todos, filter))
    ensures forall i, j :: 0 <= i < j < |r| ==> Compare(r[i], r[j], PriorityKey) <= 0
    ensures forall i, j :: 0 <= i < j < |r| && r[i].completed ==> r[j].completed
  {
    var r := SortBy(FilterByCategory(todos, filter), SortRank);
    assert forall i, j :: 0 <= i < j < |r| ==> SortRank(r[i]) <= SortRank(r[j]);
    r
  }

  /** Tasks that compare equal keep their storage order. */
  lemma VisibleTodosStable(todos: seq<Todo>, filter: string, k: int)
    ensures WithRank(VisibleTodos(todos, filter), SortRank, k) == WithRank(FilterByCategory(todos, filter), SortRank, k)
  {
    SortByStable(FilterByCategory(todos, filter), SortRank, k);
  }

  /** The drawing order as written, with `|| 1`. */
  function VisibleTodosAsWritten(todos: seq<Todo>, filter: string): (r: seq<Todo>)
    ensures multiset(r) == multiset(FilterByCategory(todos, filter))
    ensures forall i, j :: 0 <= i < j < |r| ==> Compare(r[i], r[j], PriorityKeyAsWritten) <= 0
  {
    var r := SortBy(FilterByCategory(todos, filter), SortRankAsWritten);
    assert forall i, j :: 0 <= i < j < |r| ==> SortRankAsWritten(r[i]) <= SortRankAsWritten(r[j]);
    r
  }

  /** As written, tasks that compare equal keep their storage order too. */
  lemma VisibleTodosAsWrittenStable(todos: seq<Todo>, filter: string, k: int)
    ensures WithRank(VisibleTodosAsWritten(todos, filter), SortRankAsWritten, k)
         == WithRank(FilterByCategory(todos, filter), SortRankAsWritten, k)
  {
    SortByStable(FilterByCategory(todos, filter), SortRankAsWritten, k);
  }

  /** As written, an unfinished high-priority task stored after an
      unfinished medium one is drawn after it: the comparator calls them
      equal and the stable sort keeps storage order. */
  lemma HighTiesMediumAsWritten(medium: Todo, high: Todo)
    requires medium.priority == "중간" && high.priority == "높음"
    requires !medium.completed && !high.completed
    ensures Compare(high, medium, PriorityKeyAsWritten) == 0
    ensures VisibleTodosAsWritten([medium, high], ALL_FILTER) == [medium, high]
  {
    assert SortRankAsWritten(medium) == 1 && SortRankAsWritten(high) == 1;
    SortBySorted([medium, high], SortRankAsWritten);
  }

  /** With the intended key, an unfinished task of higher priority is drawn
      first wherever it is stored. */
  lemma HigherPriorityFirst(todos: seq<Todo>, filter: string, i: int, j: int)
    requires var r := VisibleTodos(todos, filter);
      0 <= i < |r| && 0 <= j < |r| && !r[i].completed && !r[j].completed
      && PriorityKey(r[i].priority) < PriorityKey(r[j].priority)
    ensures i < j
  {
  }

  /** The same two tasks as in `HighTiesMediumAsWritten`, ordered by the
      intended key. */
  lemma HighBeforeMedium(medium: Todo, high: Todo)
    requires medium.priority == "중간" && high.priority == "높음"
    requires !medium.completed && !high.completed
    ensures Compare(high, medium, PriorityKey) < 0
    ensures VisibleTodos([medium, high], ALL_FILTER) == [high, medium]
  {
    assert SortRank(medium) == 1 && SortRank(high) == 0;
    assert [medium, high][1..] == [high];
    assert SortBy([high], SortRank) == [high];
    assert SortBy([medium, high], SortRank) == Insert(medium, [high], SortRank);
    assert Insert(medium, [high], SortRank) == [high, medium];
  }

  // ---------------------------------------------------------------------
  // handleAdd and saveEdit
  // ---------------------------------------------------------------------

  /** `handleAdd` with the input box holding `raw` and the selects holding
      `category` and `priority`: nothing happens for a blank entry,
      otherwise the trimmed text is stored as a new one-off task. */
  function HandleAdd(todos: seq<Todo>, raw: string, category: string, priority: string,
                     id: string, today: Date, now: string): (r: seq<Todo>)
    ensures AllSpace(raw) ==> r == todos
    ensures !AllSpace(raw) ==>
      && |r| == |todos| + 1 && r[..|todos|] == todos
      && var t := r[|todos|];
        && t.id == id
        && t.text == Take(Trim(raw), MAX_TEXT)
        && |t.text| > 0 && !IsJsSpace(t.text[0])
        && t.category == OrDefault(Some(category), DEFAULT_CATEGORY)
        && t.priority == OrDefault(Some(priority), DEFAULT_PRIORITY)
        && !t.completed && !t.isRecurring && t.lastResetDate == None
  {
    var text := Trim(raw);
    if text == [] then todos
    else AddTodo(todos, TodoInput(Some(text), Some(category), Some(priority), false), id, today, now)
  }

  /** `saveEdit` for task `id`: a blank edit is dropped, otherwise the
      trimmed text and both selects overwrite the task's fields. */
  function SaveEdit(todos: seq<Todo>, id: string, raw: string, category: string, priority: string): (r: seq<Todo>)
    ensures AllSpace(raw) || !HasId(todos, id) ==> r == todos
    ensures |r| == |todos|
    ensures !AllSpace(raw) && HasId(todos, id) ==>
      var i := FirstIndex(todos, id).value;
      && r[i].text == Trim(raw) && r[i].category == category && r[i].priority == priority
      && r[i].id == todos[i].id && r[i].completed == todos[i].completed
      && r[i].createdAt == todos[i].createdAt && r[i].completedAt == todos[i].completedAt
      && r[i].isRecurring == todos[i].isRecurring && r[i].lastResetDate == todos[i].lastResetDate
      && forall j :: 0 <= j < |todos| && j != i ==> r[j] == todos[j]
  {
    var text := Trim(raw);
    if text == [] then todos
    else
      UpdateTodo(todos, id, TodoPatch(None, Some(text), Some(category), Some(priority),
                                     None, None, None, None, None)).todos
  }

  /** Saving the same edit twice is saving it once. */
  lemma SaveEditIdempotent(todos: seq<Todo>, id: string, raw: string, category: string, priority: string)
    ensures var once := SaveEdit(todos, id, raw, category, priority);
      SaveEdit(once, id, raw, category, priority) == once
  {
    var once := SaveEdit(todos, id, raw, category, priority);
    if !AllSpace(raw) && HasId(todos, id) {
      var i := FirstIndex(todos, id).value;
      assert once[i].id == id;
      assert HasId(once, id);
      assert FirstIndex(once, id) == Some(i);
    }
  }
}
