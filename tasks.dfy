/** The task list of the to-do application as values: the task record, the
    application state `(tasks, nextId)`, the lookups the controller does
    with `find`/`findIndex`, and one specification function per state
    change (add, delete, toggle, edit, load) with the lemmas that say what
    each change means and which invariants it keeps. */
module Tasks {
  import opened TextTrim

  datatype Option<T> = None | Some(value: T)

  /** One to-do entry. */
  datatype Task = Task(id: int, text: string, done: bool)

  /** The controller's two state fields. */
  datatype AppState = AppState(tasks: seq<Task>, nextId: int)

  // ---------------------------------------------------------------------
  // Lookup by id

  /** `tasks.findIndex(t => t.id === id)`: the index of the first task
      carrying `id`, or -1 when no task does. `tasks.find(...)` is the task
      at that index. */
  function IndexOf(s: seq<Task>, id: int): (i: int)
    ensures -1 <= i < |s|
    ensures 0 <= i ==> s[i].id == id && forall k :: 0 <= k < i ==> s[k].id != id
    ensures i < 0 ==> forall k :: 0 <= k < |s| ==> s[k].id != id
  {
    if s == [] then -1
    else if s[0].id == id then 0
    else
      var j := IndexOf(s[1..], id);
      if j < 0 then -1 else j + 1
  }

  /** Two lists whose ids agree position by position answer every lookup
      alike, so a change that keeps the ids finds the same task again. */
  lemma SameIdsSameIndex(s: seq<Task>, r: seq<Task>, id: int)
    requires |r| == |s|
    requires forall k :: 0 <= k < |s| ==> r[k].id == s[k].id
    ensures IndexOf(r, id) == IndexOf(s, id)
  {
  }

  /** `s` with the element at `k` removed (`splice(k, 1)` for a valid `k`). */
  function RemoveAt(s: seq<Task>, k: nat): seq<Task>
    requires k < |s|
  {
    s[..k] + s[k + 1..]
  }

  // ---------------------------------------------------------------------
  // Invariants on the ids

  /** Every id in the list is below the counter, so the next add is fresh. */
  predicate IdsBelow(s: seq<Task>, n: int) {
    forall k :: 0 <= k < |s| ==> s[k].id < n
  }

  /** No two tasks share an id. */
  predicate IdsDistinct(s: seq<Task>) {
    forall i, j :: 0 <= i < j < |s| ==> s[i].id != s[j].id
  }

  /** The ids read in list order strictly increase, as they do for tasks
      created by successive adds and never reordered. */
  predicate IdsIncreasing(s: seq<Task>) {
    forall i, j :: 0 <= i < j < |s| ==> s[i].id < s[j].id
  }

  predicate WellFormed(st: AppState) {
    IdsBelow(st.tasks, st.nextId) && IdsDistinct(st.tasks)
  }

  /** A change that keeps the ids position by position keeps both
      invariants and the increasing order. */
  lemma SameIdsKeepInvariants(s: seq<Task>, r: seq<Task>, n: int)
    requires |r| == |s|
    requires forall k :: 0 <= k < |s| ==> r[k].id == s[k].id
    ensures WellFormed(AppState(s, n)) ==> WellFormed(AppState(r, n))
    ensures IdsIncreasing(s) ==> IdsIncreasing(r)
  {
  }

  // ---------------------------------------------------------------------
  // addTask

  /** `addTask`: the input is trimmed; blank input is ignored, otherwise a
      task with the counter's id, the trimmed text and `done == false` is
      appended and the counter moves on. */
  function Add(st: AppState, raw: string): AppState {
    var text := Trim(raw);
    if text == [] then st
    else AppState(st.tasks + [Task(st.nextId, text, false)], st.nextId + 1)
  }

  /** Empty or whitespace-only input leaves the tasks and the counter alone. */
  lemma AddBlankIsNoop(st: AppState, raw: string)
    requires AllWhitespace(raw)
    ensures Add(st, raw) == st
  {
    TrimEmptyIff(raw);
  }

  /** Any other input appends exactly one task at the end, carrying the old
      counter as its id, the trimmed text and `done == false`; the earlier
      tasks stay as they were and the counter grows by one. */
  lemma AddAppendsOne(st: AppState, raw: string)
    requires !AllWhitespace(raw)
    ensures var r := Add(st, raw);
      |r.tasks| == |st.tasks| + 1 && r.tasks[..|st.tasks|] == st.tasks &&
      r.tasks[|st.tasks|] == Task(st.nextId, Trim(raw), false) &&
      Trim(raw) != [] && r.nextId == st.nextId + 1
  {
    TrimEmptyIff(raw);
  }

  /** The new id is above every id present, so adding keeps the ids
      distinct, below the counter and in increasing order. */
  lemma AddKeepsInvariants(st: AppState, raw: string)
    requires WellFormed(st)
    ensures WellFormed(Add(st, raw))
    ensures IdsIncreasing(st.tasks) ==> IdsIncreasing(Add(st, raw).tasks)
  {
  }

  /** A run of adds, one per entry of `inputs`. */
  function AddAll(st: AppState, inputs: seq<string>): AppState
    decreases |inputs|
  {
    if inputs == [] then st else AddAll(Add(st, inputs[0]), inputs[1..])
  }

  /** Successive adds only append, and the tasks they append carry
      consecutive ids counted from the old counter up to the new one. */
  lemma {:induction false} AddsAppend(st: AppState, inputs: seq<string>)
    ensures var r := AddAll(st, inputs);
      |st.tasks| <= |r.tasks| && r.tasks[..|st.tasks|] == st.tasks &&
      r.nextId == st.nextId + (|r.tasks| - |st.tasks|) &&
      forall k :: |st.tasks| <= k < |r.tasks| ==> r.tasks[k].id == st.nextId + (k - |st.tasks|)
    decreases |inputs|
  {
    if inputs != [] {
      var mid := Add(st, inputs[0]);
      AddsAppend(mid, inputs[1..]);
      var r := AddAll(mid, inputs[1..]);
      assert r == AddAll(st, inputs);
      assert mid.tasks[..|st.tasks|] == st.tasks;
      assert r.tasks[..|mid.tasks|][..|st.tasks|] == r.tasks[..|st.tasks|];
      forall k | |st.tasks| <= k < |mid.tasks| ensures r.tasks[k].id == st.nextId + (k - |st.tasks|) {
        assert r.tasks[k] == mid.tasks[k];
      }
    }
  }

  /** Successive adds, on any well-formed state (a reordered list
      included), only append; the ids they hand out lie between the old
      and the new counter and increase in the order the tasks were added,
      so they are unique; and the invariants are kept. */
  lemma AddsGiveIncreasingIds(st: AppState, inputs: seq<string>)
    requires WellFormed(st)
    ensures var r := AddAll(st, inputs);
      WellFormed(r) && st.nextId <= r.nextId &&
      |st.tasks| <= |r.tasks| && r.tasks[..|st.tasks|] == st.tasks &&
      IdsIncreasing(r.tasks[|st.tasks|..]) &&
      (forall k :: |st.tasks| <= k < |r.tasks| ==> st.nextId <= r.tasks[k].id < r.nextId) &&
      (IdsIncreasing(st.tasks) ==> IdsIncreasing(r.tasks))
  {
    AddsAppend(st, inputs);
    var r := AddAll(st, inputs);
    var n := |st.tasks|;
    assert forall k :: 0 <= k < n ==> r.tasks[k] == st.tasks[k] by {
      forall k | 0 <= k < n ensures r.tasks[k] == st.tasks[k] {
        assert r.tasks[..n][k] == r.tasks[k];
      }
    }
  }

  // ---------------------------------------------------------------------
  // deleteTask

  /** `tasks.filter(t => t.id !== id)`: every task but those carrying `id`,
      in their old order. */
  function Without(s: seq<Task>, id: int): seq<Task> {
    if s == [] then []
    else if s[0].id == id then Without(s[1..], id)
    else [s[0]] + Without(s[1..], id)
  }

  /** The filtered list holds exactly the tasks of the old one whose id is
      not the deleted id. */
  lemma {:induction false} WithoutMembers(s: seq<Task>, id: int)
    ensures forall t :: t in Without(s, id) <==> t in s && t.id != id
  {
    if s != [] {
      WithoutMembers(s[1..], id);
      assert s == [s[0]] + s[1..];
    }
  }

  /** The filter keeps every copy of every record whose id differs and no
      copy of any other, so with `WithoutKeepsOrder` it fixes the result
      even when records repeat. */
  lemma {:induction false} WithoutCounts(s: seq<Task>, id: int)
    ensures forall t :: multiset(Without(s, id))[t] == if t.id == id then 0 else multiset(s)[t]
  {
    if s != [] {
      WithoutCounts(s[1..], id);
      assert s == [s[0]] + s[1..];
      assert multiset(s) == multiset{s[0]} + multiset(s[1..]);
      if s[0].id != id {
        assert multiset(Without(s, id)) == multiset{s[0]} + multiset(Without(s[1..], id));
      }
    }
  }

  /** `r` is `s` with some elements dropped and the rest in the same order. */
  ghost predicate IsSubsequence(r: seq<Task>, s: seq<Task>)
    decreases |s|
  {
    if r == [] then true
    else if s == [] then false
    else if r[0] == s[0] then IsSubsequence(r[1..], s[1..])
    else IsSubsequence(r, s[1..])
  }

  /** Deleting keeps every other task in the same relative order. */
  lemma {:induction false} WithoutKeepsOrder(s: seq<Task>, id: int)
    ensures IsSubsequence(Without(s, id), s)
  {
    if s != [] {
      WithoutKeepsOrder(s[1..], id);
      WithoutMembers(s[1..], id);
      if s[0].id != id {
        assert ([s[0]] + Without(s[1..], id))[1..] == Without(s[1..], id);
      }
    }
  }

  /** Deleting an id that no task carries changes nothing. */
  lemma {:induction false} WithoutAbsentIsNoop(s: seq<Task>, id: int)
    requires IndexOf(s, id) < 0
    ensures Without(s, id) == s
  {
    if s != [] {
      WithoutAbsentIsNoop(s[1..], id);
      assert [s[0]] + s[1..] == s;
    }
  }

  /** The tail of a list with distinct ids has distinct ids, none of them
      the head's. */
  lemma DistinctTail(s: seq<Task>)
    requires s != [] && IdsDistinct(s)
    ensures IdsDistinct(s[1..])
    ensures forall k :: 0 <= k < |s| - 1 ==> s[1..][k].id != s[0].id
  {
  }

  /** With distinct ids, deleting a present id removes exactly the one task
      that carries it, so the list shrinks by exactly one. */
  lemma {:induction false} WithoutRemovesOne(s: seq<Task>, id: int)
    requires IdsDistinct(s) && 0 <= IndexOf(s, id)
    ensures Without(s, id) == RemoveAt(s, IndexOf(s, id))
    ensures |Without(s, id)| == |s| - 1
  {
    var tail := s[1..];
    DistinctTail(s);
    if s[0].id == id {
      assert IndexOf(tail, id) < 0;
      WithoutAbsentIsNoop(tail, id);
      assert RemoveAt(s, 0) == tail;
    } else {
      var k := IndexOf(tail, id);
      assert IndexOf(s, id) == k + 1;
      WithoutRemovesOne(tail, id);
      assert Without(s, id) == [s[0]] + Without(tail, id);
      assert s[..k + 1] == [s[0]] + tail[..k];
      assert s[k + 2..] == tail[k + 1..];
      assert RemoveAt(s, k + 1) == [s[0]] + RemoveAt(tail, k);
    }
  }

  /** Deleting keeps the ids distinct, below the counter and in order. */
  lemma {:induction false} WithoutKeepsInvariants(s: seq<Task>, id: int, n: int)
    ensures WellFormed(AppState(s, n)) ==> WellFormed(AppState(Without(s, id), n))
    ensures IdsIncreasing(s) ==> IdsIncreasing(Without(s, id))
  {
    if IdsDistinct(s) { WithoutKeepsDistinct(s, id); }
    if IdsIncreasing(s) { WithoutKeepsIncreasing(s, id); }
    if IdsBelow(s, n) {
      WithoutMembers(s, id);
      var r := Without(s, id);
      forall k | 0 <= k < |r| ensures r[k].id < n { assert r[k] in s; }
    }
  }

  /** A head whose id no later task carries keeps the ids distinct. */
  lemma PrependDistinct(x: Task, rest: seq<Task>)
    requires IdsDistinct(rest)
    requires forall t :: t in rest ==> t.id != x.id
    ensures IdsDistinct([x] + rest)
  {
    var r := [x] + rest;
    forall i, j | 0 <= i < j < |r| ensures r[i].id != r[j].id {
      assert r[j] == rest[j - 1];
      if 0 < i { assert r[i] == rest[i - 1]; }
    }
  }

  /** A head whose id is below every later id keeps the ids increasing. */
  lemma PrependIncreasing(x: Task, rest: seq<Task>)
    requires IdsIncreasing(rest)
    requires forall t :: t in rest ==> x.id < t.id
    ensures IdsIncreasing([x] + rest)
  {
    var r := [x] + rest;
    forall i, j | 0 <= i < j < |r| ensures r[i].id < r[j].id {
      assert r[j] == rest[j - 1];
      if 0 < i { assert r[i] == rest[i - 1]; }
    }
  }

  lemma {:induction false} WithoutKeepsDistinct(s: seq<Task>, id: int)
    requires IdsDistinct(s)
    ensures IdsDistinct(Without(s, id))
  {
    if s != [] {
      var tail := s[1..];
      DistinctTail(s);
      WithoutKeepsDistinct(tail, id);
      if s[0].id != id {
        var rest := Without(tail, id);
        WithoutMembers(tail, id);
        forall t | t in rest ensures t.id != s[0].id {
          var k :| 0 <= k < |tail| && tail[k] == t;
        }
        PrependDistinct(s[0], rest);
      }
    }
  }

  /** The tail of a list with increasing ids has increasing ids, all
      above the head's. */
  lemma IncreasingTail(s: seq<Task>)
    requires s != [] && IdsIncreasing(s)
    ensures IdsIncreasing(s[1..])
    ensures forall k :: 0 <= k < |s| - 1 ==> s[0].id < s[1..][k].id
  {
  }

  lemma {:induction false} WithoutKeepsIncreasing(s: seq<Task>, id: int)
    requires IdsIncreasing(s)
    ensures IdsIncreasing(Without(s, id))
  {
    if s != [] {
      var tail := s[1..];
      IncreasingTail(s);
      WithoutKeepsIncreasing(tail, id);
      if s[0].id != id {
        var rest := Without(tail, id);
        WithoutMembers(tail, id);
        forall t | t in rest ensures s[0].id < t.id {
          var k :| 0 <= k < |tail| && tail[k] == t;
        }
        PrependIncreasing(s[0], rest);
      }
    }
  }

  // ---------------------------------------------------------------------
  // toggleTask

  /** `toggleTask`: the first task carrying `id` has its `done` flipped. */
  function Toggled(s: seq<Task>, id: int): seq<Task> {
    var i := IndexOf(s, id);
    if i < 0 then s else s[i := s[i].(done := !s[i].done)]
  }

  /** Toggling flips `done` of the first task carrying `id` and of no other
      task, and never touches an id or a text; an absent id is a no-op. */
  lemma ToggleEffect(s: seq<Task>, id: int)
    ensures var r := Toggled(s, id);
      |r| == |s| &&
      (IndexOf(s, id) < 0 ==> r == s) &&
      forall k :: 0 <= k < |s| ==>
        r[k].id == s[k].id && r[k].text == s[k].text &&
        (r[k].done != s[k].done <==> k == IndexOf(s, id))
  {
  }

  /** Toggling twice restores the list. */
  lemma ToggleTwice(s: seq<Task>, id: int)
    ensures Toggled(Toggled(s, id), id) == s
  {
    SameIdsSameIndex(s, Toggled(s, id), id);
  }

  lemma ToggleKeepsInvariants(s: seq<Task>, id: int, n: int)
    ensures WellFormed(AppState(s, n)) ==> WellFormed(AppState(Toggled(s, id), n))
    ensures IdsIncreasing(s) ==> IdsIncreasing(Toggled(s, id))
  {
    SameIdsKeepInvariants(s, Toggled(s, id), n);
  }

  // ---------------------------------------------------------------------
  // editTask

  /** `editTask`: when a task carries `id` and the new text is not blank
      after trimming, that task's text becomes the trimmed text. */
  function Edited(s: seq<Task>, id: int, raw: string): seq<Task> {
    var i := IndexOf(s, id);
    var text := Trim(raw);
    if i < 0 || text == [] then s else s[i := s[i].(text := text)]
  }

  /** Editing changes only the text of the first task carrying `id`, to the
      trimmed new text, and only when that text is not all whitespace; ids,
      `done` flags, order and the other tasks never change. */
  lemma EditEffect(s: seq<Task>, id: int, raw: string)
    ensures var r := Edited(s, id, raw);
      |r| == |s| &&
      (IndexOf(s, id) < 0 || AllWhitespace(raw) ==> r == s) &&
      forall k :: 0 <= k < |s| ==>
        r[k].id == s[k].id && r[k].done == s[k].done &&
        r[k].text == (if k == IndexOf(s, id) && !AllWhitespace(raw) then Trim(raw) else s[k].text)
  {
    TrimEmptyIff(raw);
  }

  lemma EditKeepsInvariants(s: seq<Task>, id: int, raw: string, n: int)
    ensures WellFormed(AppState(s, n)) ==> WellFormed(AppState(Edited(s, id, raw), n))
    ensures IdsIncreasing(s) ==> IdsIncreasing(Edited(s, id, raw))
  {
    SameIdsKeepInvariants(s, Edited(s, id, raw), n);
  }

  // ---------------------------------------------------------------------
  // loadFromFile

  /** What the file picker, the file reader and `JSON.parse` deliver to the
      load handler: no file chosen; a chosen file that could not be read
      (the reader's `load` event never fires); a file whose handling throws
      before any field is assigned (text that does not parse, or parses to
      `null`), with the error's message; or a parsed object whose `tasks`
      and `nextId` fields may be missing. */
  datatype LoadInput =
    | NoFile
    | ReadFailed
    | Unparsable(message: string)
    | Parsed(tasks: Option<seq<Task>>, nextId: Option<int>)

  /** The state after a load: `tasks = data.tasks || []` and
      `nextId = data.nextId || nextId`, where a missing or zero `nextId` is
      falsy and keeps the current counter; without a file or on a parse
      error nothing changes. */
  function Load(st: AppState, input: LoadInput): AppState {
    match input
    case NoFile => st
    case ReadFailed => st
    case Unparsable(_) => st
    case Parsed(ts, n) =>
      AppState(
        if ts.Some? then ts.value else [],
        if n.Some? && n.value != 0 then n.value else st.nextId)
  }

  /** The alert shown after a load attempt, if any: there is one exactly
      when the chosen file was read. */
  function LoadNotice(input: LoadInput): (m: Option<string>)
    ensures m.None? <==> input.NoFile? || input.ReadFailed?
  {
    match input
    case NoFile => None
    case ReadFailed => None
    case Unparsable(msg) => Some("Ошибка загрузки файла: " + msg)
    case Parsed(_, _) => Some("Файл загружен успешно!")
  }

  /** The document `saveToFile` writes, as `JSON.parse` reads it back. */
  function SavedDocument(st: AppState): LoadInput {
    Parsed(Some(st.tasks), Some(st.nextId))
  }

  /** Saving and loading the file again, into this or any other session,
      restores the saved state exactly when its counter is not zero: a zero
      counter is falsy and the loading session keeps its own. */
  lemma SaveLoadRoundTrip(saved: AppState, current: AppState)
    ensures Load(current, SavedDocument(saved)) == saved
            <==> saved.nextId != 0 || current.nextId == 0
  {
  }

  /** Loading data that already meets the invariant, with a non-zero
      counter, leaves a state that meets it. */
  lemma LoadWellFormedData(st: AppState, ts: seq<Task>, n: int)
    requires n != 0 && WellFormed(AppState(ts, n))
    ensures WellFormed(Load(st, Parsed(Some(ts), Some(n))))
  {
  }

  /** Loaded data is not checked: a file whose counter is zero keeps the
      current counter, and a loaded id at or above it breaks the invariant. */
  lemma LoadDoesNotValidate(st: AppState, t: Task)
    requires st.nextId <= t.id
    ensures !WellFormed(Load(st, Parsed(Some([t]), Some(0))))
  {
    assert Load(st, Parsed(Some([t]), Some(0))).tasks[0] == t;
  }
}
