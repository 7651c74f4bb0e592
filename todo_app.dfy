/** The `TodoApp` controller: the task list and the id counter it owns, and
    the handlers that change them. Each handler is proved to produce the
    state its specification function in `Tasks` or `Reorder` describes;
    all but the load, which takes the file's data unchecked, also keep the
    id invariants. */
module App {
  import opened TextTrim
  import opened Tasks
  import opened Reorder

  class TodoApp {
    var tasks: seq<Task>
    var nextId: int

    /** Ids are distinct and all below the counter, so every add hands out
        a fresh one. */
    ghost predicate Valid()
      reads this
    {
      WellFormed(AppState(tasks, nextId))
    }

    function Snapshot(): AppState
      reads this
    {
      AppState(tasks, nextId)
    }

    /** The start-up state: no tasks, and ids counted from 1. */
    constructor ()
      ensures tasks == [] && nextId == 1
      ensures Valid()
    {
      tasks := [];
      nextId := 1;
    }

    /** `this.tasks.findIndex(t => t.id === id)`: a linear scan for the
        first task carrying `id`; -1 when there is none. */
    method FindIndex(id: int) returns (i: int)
      ensures -1 <= i < |tasks|
      ensures 0 <= i ==> tasks[i].id == id && forall k :: 0 <= k < i ==> tasks[k].id != id
      ensures i < 0 ==> forall k :: 0 <= k < |tasks| ==> tasks[k].id != id
      ensures i == IndexOf(tasks, id)
    {
      i := 0;
      while i < |tasks|
        invariant 0 <= i <= |tasks|
        invariant forall k :: 0 <= k < i ==> tasks[k].id != id
      {
        if tasks[i].id == id {
          return;
        }
        i := i + 1;
      }
      i := -1;
    }

    /** `addTask`, with the input field's value passed in as `raw`. */
    method AddTask(raw: string)
      modifies this
      ensures Snapshot() == Add(old(Snapshot()), raw)
      ensures old(Valid()) ==> Valid()
    {
      if Valid() { AddKeepsInvariants(Snapshot(), raw); }
      var text := Trim(raw);
      if text != [] {
        tasks := tasks + [Task(nextId, text, false)];
        nextId := nextId + 1;
      }
    }

    /** `deleteTask`: the list is replaced by its filtered copy. */
    method DeleteTask(id: int)
      modifies this
      ensures tasks == Without(old(tasks), id) && nextId == old(nextId)
      ensures old(Valid()) ==> Valid()
    {
      WithoutKeepsInvariants(tasks, id, nextId);
      tasks := Without(tasks, id);
    }

    /** `toggleTask`: flips `done` on the task `find` returns, if any. */
    method ToggleTask(id: int)
      modifies this
      ensures tasks == Toggled(old(tasks), id) && nextId == old(nextId)
      ensures old(Valid()) ==> Valid()
    {
      ToggleKeepsInvariants(tasks, id, nextId);
      var i := FindIndex(id);
      if 0 <= i {
        tasks := tasks[i := tasks[i].(done := !tasks[i].done)];
      }
    }

    /** `editTask`, with the edited element's text content passed in as
        `newText`. */
    method EditTask(id: int, newText: string)
      modifies this
      ensures tasks == Edited(old(tasks), id, newText) && nextId == old(nextId)
      ensures old(Valid()) ==> Valid()
    {
      EditKeepsInvariants(tasks, id, newText, nextId);
      var i := FindIndex(id);
      var text := Trim(newText);
      if 0 <= i && text != [] {
        tasks := tasks[i := tasks[i].(text := text)];
      }
    }

    /** The `drop` listener: `draggedId` is the id carried by the drag, and
        `dropTarget` the id of the task item the drop landed in, if any. */
    method Drop(draggedId: int, dropTarget: Option<int>)
      modifies this
      ensures tasks == Dropped(old(tasks), draggedId, dropTarget) && nextId == old(nextId)
      ensures old(Valid()) ==> Valid()
    {
      if Valid() { DropKeepsInvariants(tasks, draggedId, dropTarget, nextId); }
      var found := FindIndex(draggedId);
      if found < 0 {
        return;
      }
      var dragged := tasks[found];
      if dropTarget.Some? {
        var dropIndex := FindIndex(dropTarget.value);
        var draggedIndex := FindIndex(dragged.id);
        tasks := SpliceRemove(tasks, draggedIndex);
        tasks := SpliceInsert(tasks, dropIndex, dragged);
      }
    }

    /** `loadFromFile` with its `onload` callback, given what the file
        picker, the reader and the JSON parser produced; returns the alert
        text, if any. */
    method LoadFromFile(input: LoadInput) returns (notice: Option<string>)
      modifies this
      ensures Snapshot() == Load(old(Snapshot()), input)
      ensures notice == LoadNotice(input)
    {
      notice := LoadNotice(input);
      match input {
        case NoFile =>
        case ReadFailed =>
        case Unparsable(_) =>
        case Parsed(ts, n) =>
          tasks := if ts.Some? then ts.value else [];
          nextId := if n.Some? && n.value != 0 then n.value else nextId;
      }
    }
  }

  /** A short session from the start-up state: two adds and a toggle, for
      any two texts that `trim` leaves as they are (such as "Buy milk" and
      "Walk dog", see `TrimSurrounded`). */
  method Session(first: string, second: string)
    requires first != [] && Trim(first) == first
    requires second != [] && Trim(second) == second
  {
    var app := new TodoApp();
    app.AddTask(first);
    app.AddTask(second);
    app.ToggleTask(1);
    assert app.tasks == [Task(1, first, true), Task(2, second, false)];
    assert app.nextId == 3;
  }
}
