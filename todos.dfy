// The to-do records, the completion filter, the copy-on-write list operations behind
// `addTask`, `toggleTask` and `deleteTask`, and the derived view that the state holder
// publishes as `todos` (viewmodel/TodoViewModel.kt).

module Todos {
  import opened Seqs
  import opened Text

  /** One task. A freshly added task has `isDone` false: the assumed default of the record. */
  datatype Todo = Todo(id: int, title: string, isDone: bool)

  /** Which tasks the view shows by completion status. */
  datatype TodoFilter = All | Active | Completed

  datatype Option<T> = None | Some(value: T)

  predicate HasId(todos: seq<Todo>, id: int) {
    exists i :: 0 <= i < |todos| && todos[i].id == id
  }

  /** No two tasks share an id: the invariant the state holder keeps. */
  ghost predicate UniqueIds(todos: seq<Todo>) {
    forall i, j :: 0 <= i < j < |todos| ==> todos[i].id != todos[j].id
  }

  // ---------------------------------------------------------------- addTask

  /** Kotlin's `maxOfOrNull { it.id }`: the largest id, or none for an empty list. */
  function MaxId(todos: seq<Todo>): (r: Option<int>)
    ensures r == None <==> todos == []
    ensures r.Some? ==> HasId(todos, r.value)
    ensures r.Some? ==> forall t :: t in todos ==> t.id <= r.value
  {
    if todos == [] then None
    else match MaxId(todos[1..])
      case None => Some(todos[0].id)
      case Some(m) => Some(if m < todos[0].id then todos[0].id else m)
  }

  /** The id `addTask` gives a new task: one more than the largest id, or 1 for an empty list.
      It exceeds every id present, and is exactly one above one of them unless the list is empty. */
  function NextId(todos: seq<Todo>): (r: int)
    ensures forall t :: t in todos ==> t.id < r
    ensures todos == [] ==> r == 1
    ensures todos != [] ==> HasId(todos, r - 1)
  {
    (match MaxId(todos) case Some(m) => m case None => 0) + 1
  }

  /** The list after `addTask(title)`: the old list, unchanged, then the new task. */
  function WithTask(todos: seq<Todo>, title: string): (r: seq<Todo>)
    ensures |r| == |todos| + 1 && r[..|todos|] == todos
    ensures r[|todos|].title == title && !r[|todos|].isDone
    ensures forall t :: t in todos ==> t.id < r[|todos|].id
    ensures UniqueIds(todos) ==> UniqueIds(r)
  {
    var r := todos + [Todo(NextId(todos), title, false)];
    assert r[..|todos|] == todos;
    r
  }

  // ------------------------------------------------------------- toggleTask

  /** The list after `toggleTask(id)`: same length, order, ids and titles; the completion
      flag flipped on exactly the tasks whose id is `id`. */
  function Toggled(todos: seq<Todo>, id: int): (r: seq<Todo>)
    ensures |r| == |todos|
    ensures forall i :: 0 <= i < |todos| ==>
              r[i].id == todos[i].id && r[i].title == todos[i].title &&
              (r[i].isDone != todos[i].isDone <==> todos[i].id == id)
  {
    if todos == [] then []
    else
      var t := todos[0];
      [if t.id == id then t.(isDone := !t.isDone) else t] + Toggled(todos[1..], id)
  }

  /** Toggling the same id twice restores the list. */
  lemma {:induction false} ToggledTwice(todos: seq<Todo>, id: int)
    ensures Toggled(Toggled(todos, id), id) == todos
  {
  }

  /** Toggling an id no task has leaves the list as it is. */
  lemma {:induction false} ToggledAbsent(todos: seq<Todo>, id: int)
    requires !HasId(todos, id)
    ensures Toggled(todos, id) == todos
  {
  }

  /** Toggling keeps the ids where they were, so it keeps them distinct. */
  lemma {:induction false} ToggledKeepsUniqueIds(todos: seq<Todo>, id: int)
    requires UniqueIds(todos)
    ensures UniqueIds(Toggled(todos, id))
  {
  }

  // ------------------------------------------------------------- deleteTask

  /** The list after `deleteTask(id)`: Kotlin's `filterNot { it.id == id }`. */
  function Deleted(todos: seq<Todo>, id: int): (r: seq<Todo>)
    ensures forall t :: t in r <==> t in todos && t.id != id
    ensures !HasId(r, id)
  {
    Filter(todos, OtherId(id))
  }

  /** The predicate `deleteTask(id)` keeps tasks by. */
  function OtherId(id: int): Todo -> bool {
    (t: Todo) => t.id != id
  }

  /** Deleting keeps the remaining tasks in their original relative order. */
  lemma DeletedIsSubsequence(todos: seq<Todo>, id: int)
    ensures IsSubsequence(Deleted(todos, id), todos)
  {
    FilterIsSubsequence(todos, OtherId(id));
  }

  /** Deleting an id no task has leaves the list as it is. */
  lemma DeletedAbsent(todos: seq<Todo>, id: int)
    requires !HasId(todos, id)
    ensures Deleted(todos, id) == todos
  {
    forall t | t in todos
      ensures t.id != id
    {
      var i :| 0 <= i < |todos| && todos[i] == t;
    }
    FilterKeepsAll(todos, OtherId(id));
  }

  /** With distinct ids, deleting a present id cuts out exactly the one task at its position. */
  lemma DeletedPresent(todos: seq<Todo>, id: int, k: nat)
    requires UniqueIds(todos)
    requires k < |todos| && todos[k].id == id
    ensures Deleted(todos, id) == todos[..k] + todos[k + 1..]
    ensures |Deleted(todos, id)| == |todos| - 1
  {
    var before, after := todos[..k], todos[k + 1..];
    KeptAround(todos, k);
    assert todos == before + [todos[k]] + after;
    FilterDropsOne(before, todos[k], after, OtherId(id));
  }

  /** With distinct ids, the tasks before and after position `k` all have another id. */
  lemma KeptAround(todos: seq<Todo>, k: nat)
    requires UniqueIds(todos)
    requires k < |todos|
    ensures forall t :: t in todos[..k] ==> t.id != todos[k].id
    ensures forall t :: t in todos[k + 1..] ==> t.id != todos[k].id
  {
  }

  /** Filtering keeps ids distinct; in particular deleting does. */
  lemma {:induction false} FilterKeepsUniqueIds(todos: seq<Todo>, keep: Todo -> bool)
    requires UniqueIds(todos)
    ensures UniqueIds(Filter(todos, keep))
  {
    if todos != [] {
      var rest := Filter(todos[1..], keep);
      FilterKeepsUniqueIds(todos[1..], keep);
      if keep(todos[0]) {
        var r := Filter(todos, keep);
        assert r == [todos[0]] + rest;
        forall j | 1 <= j < |r|
          ensures r[0].id != r[j].id
        {
          assert r[j] in rest;
          var m :| 0 <= m < |todos[1..]| && todos[1..][m] == r[j];
          assert todos[m + 1] == r[j];
        }
      }
    }
  }

  /** Ids are not monotonic: once the task holding the largest id is deleted, the next
      task added gets an id no greater than the deleted one, and exactly the deleted id
      when the id just below it is still present. */
  lemma IdReusedAfterDeletingMax(todos: seq<Todo>)
    requires todos != [] && forall t :: t in todos ==> t.id > 0
    ensures NextId(Deleted(todos, NextId(todos) - 1)) <= NextId(todos) - 1
    ensures HasId(todos, NextId(todos) - 2) ==> NextId(Deleted(todos, NextId(todos) - 1)) == NextId(todos) - 1
  {
    var m := NextId(todos) - 1;
    if HasId(todos, m - 1) {
      var k :| 0 <= k < |todos| && todos[k].id == m - 1;
      assert todos[k] in Deleted(todos, m);
    }
  }

  // ----------------------------------------------------------- derived view

  /** The completion predicate that a filter mode stands for. */
  predicate Keeps(filter: TodoFilter, t: Todo) {
    match filter
    case All => true
    case Active => !t.isDone
    case Completed => t.isDone
  }

  /** The search predicate: a blank query matches every task, any other query matches the
      tasks whose title contains it, ignoring case. The query is not trimmed. */
  predicate MatchesQuery(query: string, t: Todo) {
    IsBlank(query) || ContainsIgnoreCase(t.title, query)
  }

  /** The completion step of the view: ALL keeps the list as it is, ACTIVE keeps exactly the
      open tasks and COMPLETED exactly the done ones. */
  function ByCompletion(todos: seq<Todo>, filter: TodoFilter): (r: seq<Todo>)
    ensures filter == All ==> r == todos
    ensures forall t :: t in r <==> t in todos && Keeps(filter, t)
  {
    match filter
    case All => todos
    case Active => Filter(todos, (t: Todo) => !t.isDone)
    case Completed => Filter(todos, (t: Todo) => t.isDone)
  }

  /** The search step of the view: the identity for a blank query, otherwise it keeps exactly
      the tasks whose title contains the query, ignoring case. */
  function BySearch(todos: seq<Todo>, query: string): (r: seq<Todo>)
    ensures IsBlank(query) ==> r == todos
    ensures forall t :: t in r <==> t in todos && MatchesQuery(query, t)
  {
    if IsBlank(query) then todos
    else Filter(todos, (t: Todo) => ContainsIgnoreCase(t.title, query))
  }

  /** The list the state holder publishes: completion filter first, then the search. A task
      is shown exactly when it is in the list, passes the filter and matches the query. */
  function View(todos: seq<Todo>, query: string, filter: TodoFilter): (r: seq<Todo>)
    ensures |r| <= |todos|
    ensures forall t :: t in r <==> t in todos && Keeps(filter, t) && MatchesQuery(query, t)
  {
    BySearch(ByCompletion(todos, filter), query)
  }

  /** The two-step view equals a single filter by both predicates. */
  lemma ViewIsFilter(todos: seq<Todo>, query: string, filter: TodoFilter)
    ensures View(todos, query, filter) == Filter(todos, (t: Todo) => Keeps(filter, t) && MatchesQuery(query, t))
  {
    var both := (t: Todo) => Keeps(filter, t) && MatchesQuery(query, t);
    var search := (t: Todo) => ContainsIgnoreCase(t.title, query);
    match filter
    case All =>
      if IsBlank(query) {
        FilterKeepsAll(todos, both);
      } else {
        FilterExtensional(todos, search, both);
      }
    case Active =>
      var p := (t: Todo) => !t.isDone;
      if IsBlank(query) {
        FilterExtensional(todos, p, both);
      } else {
        FilterFilter(todos, p, search, both);
      }
    case Completed =>
      var p := (t: Todo) => t.isDone;
      if IsBlank(query) {
        FilterExtensional(todos, p, both);
      } else {
        FilterFilter(todos, p, search, both);
      }
  }

  /** The view is the list with some tasks left out, in the original order. */
  lemma ViewIsSubsequence(todos: seq<Todo>, query: string, filter: TodoFilter)
    ensures IsSubsequence(View(todos, query, filter), todos)
    ensures |View(todos, query, filter)| <= |todos|
  {
    ViewIsFilter(todos, query, filter);
    FilterIsSubsequence(todos, (t: Todo) => Keeps(filter, t) && MatchesQuery(query, t));
  }

  /** A blank query leaves the completion step's result as it is; so does ALL with a blank query. */
  lemma ViewBlankQuery(todos: seq<Todo>, query: string, filter: TodoFilter)
    requires IsBlank(query)
    ensures View(todos, query, filter) == ByCompletion(todos, filter)
    ensures View(todos, query, All) == todos
  {
  }

  /** For the same query, the ACTIVE and COMPLETED views split the ALL view: every task of
      the ALL view is in exactly one of them. */
  lemma ViewPartition(todos: seq<Todo>, query: string)
    ensures multiset(View(todos, query, Active)) + multiset(View(todos, query, Completed))
            == multiset(View(todos, query, All))
    ensures forall t :: !(t in View(todos, query, Active) && t in View(todos, query, Completed))
  {
    var all := View(todos, query, All);
    ViewIsFilter(todos, query, Active);
    ViewIsFilter(todos, query, Completed);
    ViewIsFilter(todos, query, All);
    var p := (t: Todo) => Keeps(Active, t) && MatchesQuery(query, t);
    var q := (t: Todo) => Keeps(Completed, t) && MatchesQuery(query, t);
    var a := (t: Todo) => Keeps(All, t) && MatchesQuery(query, t);
    FilterFilter(todos, a, p, p);
    FilterFilter(todos, a, q, q);
    FilterSplit(all, p, q);
  }

  /** One open task: shown under ALL; toggling marks it done; ACTIVE then hides it. */
  lemma ExampleToggleThenActive()
    ensures View([Todo(1, "Buy milk", false)], "", All) == [Todo(1, "Buy milk", false)]
    ensures Toggled([Todo(1, "Buy milk", false)], 1) == [Todo(1, "Buy milk", true)]
    ensures View([Todo(1, "Buy milk", true)], "", Active) == []
  {
  }

  /** The query is used untrimmed: a trailing space makes "milk " miss the title "milk". */
  lemma ExampleQueryNotTrimmed()
    ensures View([Todo(1, "milk", false)], "milk ", All) == []
    ensures View([Todo(1, "Milk", false)], "mILK", All) == [Todo(1, "Milk", false)]
  {
    assert !IsWhitespace("milk "[0]);
    assert !ContainsIgnoreCase("milk", "milk ");
    assert !IsWhitespace("mILK"[0]);
    assert MatchesAt("Milk", "mILK", 0);
  }
}
