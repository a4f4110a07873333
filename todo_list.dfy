/**
 * The task-list transitions of src/App.tsx as functions on the list:
 * add (`handleAddTodo`), update (`handleUpdateTodo`), removal (shared by
 * `handleDeleteTodo` and `handleArchiveTodo`), the task half of
 * `handleSaveSession`, and the `find` behind `selectedTodo`.
 */
module TodoList {
  import opened Types

  /** What `handleAddTodo` receives: a task without id and counters. */
  datatype TodoDraft = TodoDraft(name: string, category: string, color: string, wallpaperIndex: Option<int>)

  function Ids(todos: seq<Todo>): set<string> {
    set t | t in todos :: t.id
  }

  predicate UniqueIds(todos: seq<Todo>) {
    forall i, j :: 0 <= i < j < |todos| ==> todos[i].id != todos[j].id
  }

  lemma IdsMember(todos: seq<Todo>, id: string)
    ensures id in Ids(todos) <==> exists i :: 0 <= i < |todos| && todos[i].id == id
  {
    if id in Ids(todos) {
      var t :| t in todos && t.id == id;
    }
  }

  /** `handleAddTodo`: append a record with the draft's fields, the given id and zeroed counters. */
  function Add(todos: seq<Todo>, draft: TodoDraft, id: string): (r: seq<Todo>)
    ensures |r| == |todos| + 1 && r[..|todos|] == todos
    ensures r[|todos|].id == id
    ensures r[|todos|].name == draft.name && r[|todos|].category == draft.category
    ensures r[|todos|].color == draft.color && r[|todos|].wallpaperIndex == draft.wallpaperIndex
    ensures r[|todos|].totalCount == 0 && r[|todos|].totalDuration == 0
  {
    todos + [Todo(id, draft.name, draft.category, draft.color, 0, 0, draft.wallpaperIndex)]
  }

  /** `handleUpdateTodo`: every record carrying the updated record's id is replaced by it. */
  function Update(todos: seq<Todo>, updated: Todo): (r: seq<Todo>)
    ensures |r| == |todos|
    ensures forall i :: 0 <= i < |r| ==> r[i].id == todos[i].id
    ensures forall i :: 0 <= i < |r| && todos[i].id == updated.id ==> r[i] == updated
    ensures forall i :: 0 <= i < |r| && todos[i].id != updated.id ==> r[i] == todos[i]
  {
    seq(|todos|, i requires 0 <= i < |todos| => if todos[i].id == updated.id then updated else todos[i])
  }

  /** `handleDeleteTodo` and `handleArchiveTodo`: keep the records with another id, in order. */
  function Remove(todos: seq<Todo>, id: string): (r: seq<Todo>)
    ensures |r| <= |todos|
    ensures forall t :: t in r <==> t in todos && t.id != id
  {
    if todos == [] then []
    else if todos[0].id == id then Remove(todos[1..], id)
    else [todos[0]] + Remove(todos[1..], id)
  }

  /** The task half of `handleSaveSession`: the records with that id gain one
      session and `duration` seconds. */
  function RecordTaskSession(todos: seq<Todo>, id: string, duration: nat): (r: seq<Todo>)
    ensures |r| == |todos|
    ensures forall i :: 0 <= i < |r| && todos[i].id == id ==>
      r[i] == todos[i].(totalCount := todos[i].totalCount + 1,
                        totalDuration := todos[i].totalDuration + duration)
    ensures forall i :: 0 <= i < |r| && todos[i].id != id ==> r[i] == todos[i]
  {
    seq(|todos|, i requires 0 <= i < |todos| =>
      if todos[i].id == id
      then todos[i].(totalCount := todos[i].totalCount + 1, totalDuration := todos[i].totalDuration + duration)
      else todos[i])
  }

  /** `todos.find(t => t.id === id)`, as the position of the first match. */
  function FindIndex(todos: seq<Todo>, id: string): (r: Option<nat>)
    ensures r.None? <==> id !in Ids(todos)
    ensures r.Some? ==> r.value < |todos| && todos[r.value].id == id
    ensures r.Some? ==> forall j :: 0 <= j < r.value ==> todos[j].id != id
  {
    if todos == [] then None
    else if todos[0].id == id then Some(0)
    else
      match FindIndex(todos[1..], id)
      case None => assert Ids(todos) == Ids(todos[1..]) + {todos[0].id}; None
      case Some(k) => Some(k + 1)
  }

  function Find(todos: seq<Todo>, id: string): (r: Option<Todo>)
    ensures r.None? <==> id !in Ids(todos)
    ensures r.Some? ==> r.value in todos && r.value.id == id
  {
    match FindIndex(todos, id)
    case None => None
    case Some(k) => Some(todos[k])
  }

  /** Under unique ids the found record is the one at the given position. */
  lemma FindUnique(todos: seq<Todo>, i: nat)
    requires UniqueIds(todos) && i < |todos|
    ensures Find(todos, todos[i].id) == Some(todos[i])
  {
    IdsMember(todos, todos[i].id);
  }

  function SumCounts(todos: seq<Todo>): nat {
    if todos == [] then 0 else todos[0].totalCount + SumCounts(todos[1..])
  }

  function SumDurations(todos: seq<Todo>): nat {
    if todos == [] then 0 else todos[0].totalDuration + SumDurations(todos[1..])
  }

  // ---- removal ----

  lemma {:induction false} RemoveAbsent(todos: seq<Todo>, id: string)
    requires id !in Ids(todos)
    ensures Remove(todos, id) == todos
    decreases |todos|
  {
    if todos != [] {
      assert todos[0] in todos;
      assert Ids(todos[1..]) <= Ids(todos);
      RemoveAbsent(todos[1..], id);
    }
  }

  /** Removal works element by element, so it keeps the survivors' order. */
  lemma {:induction false} RemoveConcat(a: seq<Todo>, b: seq<Todo>, id: string)
    ensures Remove(a + b, id) == Remove(a, id) + Remove(b, id)
    decreases |a|
  {
    if a == [] {
      assert a + b == b;
    } else {
      assert (a + b)[1..] == a[1..] + b;
      RemoveConcat(a[1..], b, id);
    }
  }

  lemma UniqueElsewhere(todos: seq<Todo>, i: nat)
    requires UniqueIds(todos) && i < |todos|
    ensures todos[i].id !in Ids(todos[..i]) && todos[i].id !in Ids(todos[i + 1..])
  {
    var id, before, after := todos[i].id, todos[..i], todos[i + 1..];
    IdsMember(before, id);
    IdsMember(after, id);
    forall k | 0 <= k < |after| ensures after[k].id != id {
      assert after[k] == todos[i + 1 + k];
    }
  }

  /** Removing the id of a record that no other record carries drops just that record. */
  lemma RemoveOnly(before: seq<Todo>, t: Todo, after: seq<Todo>)
    requires t.id !in Ids(before) && t.id !in Ids(after)
    ensures Remove(before + [t] + after, t.id) == before + after
  {
    var tail := [t] + after;
    assert tail[1..] == after;
    RemoveAbsent(after, t.id);
    assert Remove(tail, t.id) == after;
    RemoveAbsent(before, t.id);
    RemoveConcat(before, tail, t.id);
    assert Remove(before + tail, t.id) == before + after;
    assert before + [t] + after == before + tail;
  }

  /** With unique ids, removing the id at position i removes exactly that record. */
  lemma RemoveUnique(todos: seq<Todo>, i: nat)
    requires UniqueIds(todos) && i < |todos|
    ensures Remove(todos, todos[i].id) == todos[..i] + todos[i + 1..]
  {
    UniqueElsewhere(todos, i);
    assert todos == todos[..i] + [todos[i]] + todos[i + 1..];
    RemoveOnly(todos[..i], todos[i], todos[i + 1..]);
  }

  /** Removing the id that was just added gives back the list before the add. */
  lemma AddThenRemove(todos: seq<Todo>, draft: TodoDraft, id: string)
    requires id !in Ids(todos)
    ensures Remove(Add(todos, draft, id), id) == todos
  {
    RemoveConcat(todos, [Add(todos, draft, id)[|todos|]], id);
    RemoveAbsent(todos, id);
  }

  lemma {:induction false} RemoveIdempotent(todos: seq<Todo>, id: string)
    ensures id !in Ids(Remove(todos, id))
    ensures Remove(Remove(todos, id), id) == Remove(todos, id)
  {
    RemoveAbsent(Remove(todos, id), id);
  }

  lemma {:induction false} RemoveKeepsUnique(todos: seq<Todo>, id: string)
    requires UniqueIds(todos)
    ensures UniqueIds(Remove(todos, id))
    decreases |todos|
  {
    if todos != [] {
      RemoveKeepsUnique(todos[1..], id);
      var r := Remove(todos[1..], id);
      forall t | t in r ensures t.id != todos[0].id {
        var k :| 0 <= k < |todos[1..]| && todos[1..][k] == t;
        assert todos[k + 1] == t;
      }
    }
  }

  lemma {:induction false} RemoveSums(todos: seq<Todo>, id: string)
    ensures SumCounts(Remove(todos, id)) <= SumCounts(todos)
    ensures SumDurations(Remove(todos, id)) <= SumDurations(todos)
    decreases |todos|
  {
    if todos != [] {
      RemoveSums(todos[1..], id);
      assert ([todos[0]] + Remove(todos[1..], id))[1..] == Remove(todos[1..], id);
    }
  }

  // ---- add ----

  lemma AddKeepsUnique(todos: seq<Todo>, draft: TodoDraft, id: string)
    requires UniqueIds(todos) && id !in Ids(todos)
    ensures UniqueIds(Add(todos, draft, id))
    ensures Ids(Add(todos, draft, id)) == Ids(todos) + {id}
  {
    var r := Add(todos, draft, id);
    forall i | 0 <= i < |todos| ensures r[i].id != id {
      assert todos[i] in todos;
    }
  }

  lemma {:induction false} SumsAppend(todos: seq<Todo>, t: Todo)
    ensures SumCounts(todos + [t]) == SumCounts(todos) + t.totalCount
    ensures SumDurations(todos + [t]) == SumDurations(todos) + t.totalDuration
    decreases |todos|
  {
    if todos != [] {
      assert (todos + [t])[1..] == todos[1..] + [t];
      SumsAppend(todos[1..], t);
    }
  }

  /** A new task carries no sessions, so the task totals do not move. */
  lemma AddSums(todos: seq<Todo>, draft: TodoDraft, id: string)
    ensures SumCounts(Add(todos, draft, id)) == SumCounts(todos)
    ensures SumDurations(Add(todos, draft, id)) == SumDurations(todos)
  {
    SumsAppend(todos, Add(todos, draft, id)[|todos|]);
  }

  // ---- update ----

  lemma UpdateAbsent(todos: seq<Todo>, updated: Todo)
    requires updated.id !in Ids(todos)
    ensures Update(todos, updated) == todos
  {
    forall i | 0 <= i < |todos| ensures todos[i].id != updated.id {
      assert todos[i] in todos;
    }
  }

  lemma UpdateIdempotent(todos: seq<Todo>, updated: Todo)
    ensures Update(Update(todos, updated), updated) == Update(todos, updated)
  {
  }

  lemma UpdateKeepsIds(todos: seq<Todo>, updated: Todo)
    ensures Ids(Update(todos, updated)) == Ids(todos)
    ensures UniqueIds(todos) ==> UniqueIds(Update(todos, updated))
  {
    var r := Update(todos, updated);
    forall id | id in Ids(todos) ensures id in Ids(r) {
      IdsMember(todos, id);
      var i :| 0 <= i < |todos| && todos[i].id == id;
      assert r[i] in r;
    }
    forall id | id in Ids(r) ensures id in Ids(todos) {
      IdsMember(r, id);
      var i :| 0 <= i < |r| && r[i].id == id;
      assert todos[i] in todos;
    }
  }

  /** Replacing records by ones with the same counters leaves the task totals unchanged. */
  lemma {:induction false} UpdateSameCounters(todos: seq<Todo>, updated: Todo)
    requires forall i :: 0 <= i < |todos| && todos[i].id == updated.id ==>
      todos[i].totalCount == updated.totalCount && todos[i].totalDuration == updated.totalDuration
    ensures SumCounts(Update(todos, updated)) == SumCounts(todos)
    ensures SumDurations(Update(todos, updated)) == SumDurations(todos)
    decreases |todos|
  {
    if todos != [] {
      var r := Update(todos, updated);
      assert r[1..] == Update(todos[1..], updated);
      UpdateSameCounters(todos[1..], updated);
    }
  }

  // ---- session ----

  lemma SessionKeepsIds(todos: seq<Todo>, id: string, duration: nat)
    ensures forall i :: 0 <= i < |todos| ==> RecordTaskSession(todos, id, duration)[i].id == todos[i].id
    ensures UniqueIds(todos) ==> UniqueIds(RecordTaskSession(todos, id, duration))
  {
  }

  /** With unique ids a session adds exactly one count and `duration` seconds to the
      task totals when the id is present, and nothing when it is absent. */
  lemma {:induction false} SessionSums(todos: seq<Todo>, id: string, duration: nat)
    requires UniqueIds(todos)
    ensures SumCounts(RecordTaskSession(todos, id, duration))
      == SumCounts(todos) + (if id in Ids(todos) then 1 else 0)
    ensures SumDurations(RecordTaskSession(todos, id, duration))
      == SumDurations(todos) + (if id in Ids(todos) then duration else 0)
    decreases |todos|
  {
    if todos != [] {
      var r := RecordTaskSession(todos, id, duration);
      var tail := todos[1..];
      assert r[1..] == RecordTaskSession(tail, id, duration);
      assert Ids(todos) == {todos[0].id} + Ids(tail);
      if todos[0].id == id {
        assert id !in Ids(tail) by {
          IdsMember(tail, id);
        }
        assert RecordTaskSession(tail, id, duration) == tail;
      }
      SessionSums(tail, id, duration);
    }
  }
}
