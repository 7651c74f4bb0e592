/** Drag-and-drop reordering, as the `drop` listener of the task list does
    it: look the dragged task up, find both indexes in the list as it is,
    then `splice` the task out and `splice` it back in at the drop index. */
module Reorder {
  import opened Tasks

  // ---------------------------------------------------------------------
  // Array.prototype.splice with one element removed or inserted

  /** The position `splice(start, ...)` acts on in a list of length `len`:
      a negative start counts from the end (and stops at 0), a start past
      the end stops at the end. */
  function SpliceStart(start: int, len: nat): (k: nat)
    ensures k <= len
    ensures 0 <= start <= len ==> k == start
    ensures start > len ==> k == len
    ensures start < 0 ==> k == if len + start < 0 then 0 else len + start
  {
    if start < 0 then (if len + start < 0 then 0 else len + start)
    else if start > len then len
    else start
  }

  /** `s.splice(start, 1)`: removes the element at the splice position, if
      there is one. */
  function SpliceRemove(s: seq<Task>, start: int): seq<Task> {
    var k := SpliceStart(start, |s|);
    if k < |s| then RemoveAt(s, k) else s
  }

  /** `s.splice(start, 0, x)`: inserts `x` at the splice position. */
  function SpliceInsert(s: seq<Task>, start: int, x: Task): seq<Task> {
    var k := SpliceStart(start, |s|);
    s[..k] + [x] + s[k..]
  }

  // ---------------------------------------------------------------------
  // The drop handler

  /** The list after dropping the task dragged with id `draggedId` onto the
      list item whose id is `dropTarget` (`None` when the drop landed
      outside every task item). Both indexes are taken before the removal;
      an unknown target id yields index -1, which `splice` counts from the
      end. */
  function Dropped(s: seq<Task>, draggedId: int, dropTarget: Option<int>): seq<Task> {
    var found := IndexOf(s, draggedId);
    if found < 0 then s
    else
      match dropTarget
      case None => s
      case Some(dropId) =>
        var dragged := s[found];
        var dropIndex := IndexOf(s, dropId);
        var draggedIndex := IndexOf(s, dragged.id);
        SpliceInsert(SpliceRemove(s, draggedIndex), dropIndex, dragged)
  }

  /** Dropping a task whose id is not in the list, or dropping outside
      every task item, leaves the list alone. */
  lemma DropIgnored(s: seq<Task>, draggedId: int, dropTarget: Option<int>)
    requires IndexOf(s, draggedId) < 0 || dropTarget.None?
    ensures Dropped(s, draggedId, dropTarget) == s
  {
  }

  /** `x` placed at `p` in `a`, with `x` removed from the result at `p`,
      gives `a` back, and the whole is a rearrangement of `a` plus `x`. */
  lemma {:induction false} InsertFacts(a: seq<Task>, p: nat, x: Task)
    requires p <= |a|
    ensures var r := a[..p] + [x] + a[p..];
      |r| == |a| + 1 && r[p] == x && RemoveAt(r, p) == a &&
      multiset(r) == multiset(a) + multiset{x}
  {
  }

  /** Taking the task at `from` out and putting it back at `p` is a
      rearrangement that puts it at `p` and keeps the others in order. */
  lemma MoveFacts(s: seq<Task>, from: nat, p: nat)
    requires from < |s| && p < |s|
    ensures var a := RemoveAt(s, from);
      var r := a[..p] + [s[from]] + a[p..];
      |r| == |s| && multiset(r) == multiset(s) &&
      r[p] == s[from] && RemoveAt(r, p) == a
  {
    var a := RemoveAt(s, from);
    InsertFacts(a, p, s[from]);
    assert s == s[..from] + [s[from]] + s[from + 1..];
  }

  /** Both ids present: the dragged task ends up at the index the drop
      target had before the removal, the list keeps its length and is a
      rearrangement of the old one, and the other tasks keep their
      relative order (taking the moved task out of both lists leaves the
      same list). */
  lemma DropMovesTask(s: seq<Task>, draggedId: int, dropId: int)
    requires 0 <= IndexOf(s, draggedId) && 0 <= IndexOf(s, dropId)
    ensures var r := Dropped(s, draggedId, Some(dropId));
      var from, to := IndexOf(s, draggedId), IndexOf(s, dropId);
      |r| == |s| && multiset(r) == multiset(s) &&
      r[to] == s[from] && RemoveAt(r, to) == RemoveAt(s, from)
  {
    var from, to := IndexOf(s, draggedId), IndexOf(s, dropId);
    var a := RemoveAt(s, from);
    assert SpliceRemove(s, from) == a;
    assert Dropped(s, draggedId, Some(dropId)) == a[..to] + [s[from]] + a[to..];
    MoveFacts(s, from, to);
  }

  /** Dropping a task onto itself changes nothing. */
  lemma DropOnSelf(s: seq<Task>, id: int)
    ensures Dropped(s, id, Some(id)) == s
  {
  }

  /** The drop target's id is not in the list (the list items are rendered
      from the list, so this does not arise from the page): the index -1 is
      counted from the end, and the task lands just before the last of the
      remaining tasks. */
  lemma DropOntoUnknownTarget(s: seq<Task>, draggedId: int, dropId: int)
    requires 0 <= IndexOf(s, draggedId) && IndexOf(s, dropId) < 0
    ensures var r := Dropped(s, draggedId, Some(dropId));
      var from := IndexOf(s, draggedId);
      var at := if |s| >= 2 then |s| - 2 else 0;
      |r| == |s| && multiset(r) == multiset(s) &&
      r[at] == s[from] && RemoveAt(r, at) == RemoveAt(s, from)
  {
    var from := IndexOf(s, draggedId);
    var at := if |s| >= 2 then |s| - 2 else 0;
    var a := RemoveAt(s, from);
    assert SpliceRemove(s, from) == a;
    assert SpliceStart(-1, |a|) == at;
    assert Dropped(s, draggedId, Some(dropId)) == a[..at] + [s[from]] + a[at..];
    MoveFacts(s, from, at);
  }

  /** Worked examples: in `[A, B, C]`,
      dragging A onto C gives `[B, C, A]`, dragging C onto A gives
      `[C, A, B]`, and dragging an unknown id changes nothing. */
  lemma DropExamples(a: Task, b: Task, c: Task, unknown: int)
    requires a.id != b.id && b.id != c.id && a.id != c.id
    requires unknown != a.id && unknown != b.id && unknown != c.id
    ensures Dropped([a, b, c], a.id, Some(c.id)) == [b, c, a]
    ensures Dropped([a, b, c], c.id, Some(a.id)) == [c, a, b]
    ensures Dropped([a, b, c], unknown, Some(a.id)) == [a, b, c]
  {
    var s := [a, b, c];
    assert s[0].id == a.id && s[2].id == c.id;
    assert IndexOf(s, a.id) == 0;
    assert IndexOf(s, c.id) == 2;
    assert RemoveAt(s, 0) == [b, c];
    assert RemoveAt(s, 2) == [a, b];
  }

  /** Removing one task keeps the ids distinct and below the counter. */
  lemma RemoveKeepsInvariants(s: seq<Task>, k: nat, n: int)
    requires k < |s| && WellFormed(AppState(s, n))
    ensures WellFormed(AppState(RemoveAt(s, k), n))
    ensures forall i :: 0 <= i < |s| - 1 ==> RemoveAt(s, k)[i].id != s[k].id
  {
  }

  /** Inserting a task whose id is below the counter and new to the list
      keeps the ids distinct and below the counter. */
  lemma InsertKeepsInvariants(a: seq<Task>, p: nat, x: Task, n: int)
    requires p <= |a| && WellFormed(AppState(a, n)) && x.id < n
    requires forall i :: 0 <= i < |a| ==> a[i].id != x.id
    ensures WellFormed(AppState(a[..p] + [x] + a[p..], n))
  {
  }

  /** Reordering keeps the ids distinct and below the counter. */
  lemma DropKeepsInvariants(s: seq<Task>, draggedId: int, dropTarget: Option<int>, n: int)
    requires WellFormed(AppState(s, n))
    ensures WellFormed(AppState(Dropped(s, draggedId, dropTarget), n))
  {
    var from := IndexOf(s, draggedId);
    if 0 <= from && dropTarget.Some? {
      var a := RemoveAt(s, from);
      assert SpliceRemove(s, from) == a;
      RemoveKeepsInvariants(s, from, n);
      InsertKeepsInvariants(a, SpliceStart(IndexOf(s, dropTarget.value), |a|), s[from], n);
    }
  }
}
