// Task ids are Kotlin `Int`s, so `maxOfOrNull { it.id } + 1` wraps around past 2^31 - 1
// (viewmodel/TodoViewModel.kt, line 52). The rest of the model uses unbounded ids; this
// module states the id computation as written and the collision the wrap-around allows.

module Int32Ids {
  import opened Todos

  const INT_MIN: int := -0x8000_0000
  const INT_MAX: int := 0x7fff_ffff

  /** Kotlin's `Int` addition result: the two's-complement value modulo 2^32. */
  function Wrap(x: int): (r: int)
    ensures INT_MIN <= r <= INT_MAX
    ensures INT_MIN <= x <= INT_MAX ==> r == x
  {
    (x - INT_MIN) % 0x1_0000_0000 + INT_MIN
  }

  /** The id line 52 computes, with 32-bit wrap-around: the unbounded id while every id is
      below 2^31 - 1, and -2^31 once the largest id is 2^31 - 1. */
  function NextIdWrapped(todos: seq<Todo>): (r: int)
    ensures INT_MIN <= r <= INT_MAX
    ensures (forall t :: t in todos ==> INT_MIN <= t.id < INT_MAX) ==> r == NextId(todos)
    ensures MaxId(todos) == Some(INT_MAX) ==> r == INT_MIN
  {
    Wrap((match MaxId(todos) case Some(m) => m case None => 0) + 1)
  }

  /** The list after `addTask` as written. */
  function WithTaskWrapped(todos: seq<Todo>, title: string): (r: seq<Todo>)
    ensures |r| == |todos| + 1 && r[..|todos|] == todos
    ensures r[|todos|] == Todo(NextIdWrapped(todos), title, false)
  {
    var r := todos + [Todo(NextIdWrapped(todos), title, false)];
    assert r[..|todos|] == todos;
    r
  }

  /** Once a task holds id 2^31 - 1, every later add gets id -2^31: two adds in a row give
      two tasks the same id. */
  lemma WrappedIdCollides()
    ensures var once := WithTaskWrapped([Todo(INT_MAX, "a", false)], "b");
            var twice := WithTaskWrapped(once, "c");
            UniqueIds(once) && !UniqueIds(twice) && twice[1].id == twice[2].id == INT_MIN
  {
  }
}
