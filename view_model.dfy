// The state holder `TodoViewModel` (viewmodel/TodoViewModel.kt): three mutable fields
// and five operations that overwrite them. The reactive `todos` flow becomes the function
// `FilteredTodos`, recomputed from the current fields.

module ViewModel {
  import opened Seqs
  import opened Text
  import opened Todos

  class TodoViewModel {
    /** The full task list (`_todos`); the source's public `todos` is `FilteredTodos`. */
    var allTodos: seq<Todo>
    /** The search text (`_searchQuery`). */
    var searchQuery: string
    /** The completion filter (`_currentFilter`). */
    var currentFilter: TodoFilter

    /** The invariant every operation keeps: ids are distinct and positive. */
    ghost predicate Valid()
      reads this
    {
      UniqueIds(allTodos) && forall t :: t in allTodos ==> t.id > 0
    }

    /** A fresh holder: no tasks, an empty query, filter ALL. */
    constructor ()
      ensures Valid()
      ensures allTodos == [] && searchQuery == "" && currentFilter == All
    {
      allTodos := [];
      searchQuery := "";
      currentFilter := All;
    }

    /** The published list of tasks (`todos`): the tasks passing the current filter and
        query, a subsequence of the full list. */
    function FilteredTodos(): (r: seq<Todo>)
      reads this
      ensures IsSubsequence(r, allTodos) && |r| <= |allTodos|
      ensures forall t :: t in r <==> t in allTodos && Keeps(currentFilter, t) && MatchesQuery(searchQuery, t)
    {
      ViewIsSubsequence(allTodos, searchQuery, currentFilter);
      View(allTodos, searchQuery, currentFilter)
    }

    /** `addTask(title)`: appends one open task whose id is one above the largest id (1 for
        an empty list); every earlier task stays where it was. The title is not checked. */
    method AddTask(title: string)
      requires Valid()
      modifies this
      ensures Valid()
      ensures allTodos == WithTask(old(allTodos), title)
      ensures |allTodos| == |old(allTodos)| + 1 && allTodos[..|old(allTodos)|] == old(allTodos)
      ensures allTodos[|old(allTodos)|] == Todo(NextId(old(allTodos)), title, false)
      ensures searchQuery == old(searchQuery) && currentFilter == old(currentFilter)
    {
      var nextId := NextId(allTodos);
      allTodos := allTodos + [Todo(nextId, title, false)];
    }

    /** `toggleTask(id)`: flips the completion flag of the tasks with that id and of no other;
        length, order, ids and titles stay. An unknown id changes nothing. */
    method ToggleTask(id: int)
      requires Valid()
      modifies this
      ensures Valid()
      ensures allTodos == Toggled(old(allTodos), id)
      ensures !HasId(old(allTodos), id) ==> allTodos == old(allTodos)
      ensures searchQuery == old(searchQuery) && currentFilter == old(currentFilter)
    {
      ToggledKeepsUniqueIds(allTodos, id);
      assert !HasId(allTodos, id) ==> Toggled(allTodos, id) == allTodos by {
        if !HasId(allTodos, id) {
          ToggledAbsent(allTodos, id);
        }
      }
      ghost var before := allTodos;
      allTodos := Toggled(allTodos, id);
      forall t | t in allTodos
        ensures t.id > 0
      {
        var i :| 0 <= i < |allTodos| && allTodos[i] == t;
        assert before[i] in before;
      }
    }

    /** `deleteTask(id)`: removes the task with that id, keeping the others in order.
        An unknown id changes nothing; a present one shortens the list by exactly one. */
    method DeleteTask(id: int)
      requires Valid()
      modifies this
      ensures Valid()
      ensures allTodos == Deleted(old(allTodos), id)
      ensures IsSubsequence(allTodos, old(allTodos))
      ensures !HasId(old(allTodos), id) ==> allTodos == old(allTodos)
      ensures HasId(old(allTodos), id) ==> |allTodos| == |old(allTodos)| - 1
      ensures searchQuery == old(searchQuery) && currentFilter == old(currentFilter)
    {
      FilterKeepsUniqueIds(allTodos, OtherId(id));
      DeletedIsSubsequence(allTodos, id);
      assert HasId(allTodos, id) ==> |Deleted(allTodos, id)| == |allTodos| - 1 by {
        if HasId(allTodos, id) {
          var k :| 0 <= k < |allTodos| && allTodos[k].id == id;
          DeletedPresent(allTodos, id, k);
        }
      }
      assert !HasId(allTodos, id) ==> Deleted(allTodos, id) == allTodos by {
        if !HasId(allTodos, id) {
          DeletedAbsent(allTodos, id);
        }
      }
      allTodos := Deleted(allTodos, id);
    }

    /** `updateSearchQuery(query)`: replaces the query and nothing else. */
    method UpdateSearchQuery(query: string)
      requires Valid()
      modifies this
      ensures Valid()
      ensures searchQuery == query
      ensures allTodos == old(allTodos) && currentFilter == old(currentFilter)
    {
      searchQuery := query;
    }

    /** `setFilter(filter)`: replaces the filter and nothing else. */
    method SetFilter(filter: TodoFilter)
      requires Valid()
      modifies this
      ensures Valid()
      ensures currentFilter == filter
      ensures allTodos == old(allTodos) && searchQuery == old(searchQuery)
    {
      currentFilter := filter;
    }

    /** The screen's add button: a blank entry is ignored, any other is added trimmed. */
    method Submit(text: string) returns (added: bool)
      requires Valid()
      modifies this
      ensures Valid()
      ensures added <==> !IsBlank(text)
      ensures added ==> allTodos == WithTask(old(allTodos), Trim(text)) && Trim(text) != []
      ensures !added ==> allTodos == old(allTodos)
      ensures searchQuery == old(searchQuery) && currentFilter == old(currentFilter)
    {
      added := !IsBlank(text);
      if added {
        AddTask(Trim(text));
      }
    }
  }
}
