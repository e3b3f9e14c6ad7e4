/** Drag-and-drop reordering: the pending source id kept between
    `dragStart` and `dragEnd`, and the two `splice` calls of `dropItem`. */
module Reorder {
  import opened Seqs
  import opened Tasks

  /** `tasks.splice(src, 1)` followed by `tasks.splice(tgt, 0, moved)`, where
      `tgt` is the target's index taken BEFORE the removal. The moved element
      therefore ends at index `tgt`: just before the target when it came from
      behind it, just after the target when it came from in front of it. */
  function Move<T>(s: seq<T>, src: nat, tgt: nat): (r: seq<T>)
    requires src < |s| && tgt < |s|
    ensures |r| == |s| && multiset(r) == multiset(s)
    ensures r[tgt] == s[src]
    ensures RemoveAt(r, tgt) == RemoveAt(s, src)
    ensures tgt < src ==> r[tgt + 1] == s[tgt]
    ensures src < tgt ==> r[tgt - 1] == s[tgt]
    ensures src == tgt ==> r == s
  {
    var rest := RemoveAt(s, src);
    RemoveInserted(rest, tgt, s[src]);
    if src == tgt then InsertRemoved(s, src); InsertAt(rest, tgt, s[src])
    else InsertAt(rest, tgt, s[src])
  }

  /** Dragging the moved element back from its new index to its old one
      restores the original order. */
  lemma MoveBack<T>(s: seq<T>, src: nat, tgt: nat)
    requires src < |s| && tgt < |s|
    ensures Move(Move(s, src, tgt), tgt, src) == s
  {
    var r := Move(s, src, tgt);
    InsertRemoved(s, src);
  }

  /** The store-level reorder of `dropItem`: both ids are looked up in the
      whole collection (never in the filtered view) by their first occurrence. */
  function ReorderTasks(tasks: seq<Task>, srcId: int, tgtId: int): (r: seq<Task>)
    requires HasId(tasks, srcId) && HasId(tasks, tgtId)
    ensures |r| == |tasks| && multiset(r) == multiset(tasks)
    ensures var i, j := FindTaskIndex(tasks, srcId), FindTaskIndex(tasks, tgtId);
      r[j] == tasks[i] && RemoveAt(r, j) == RemoveAt(tasks, i)
      && (i < j ==> r[j - 1] == tasks[j])
      && (j < i ==> r[j + 1] == tasks[j])
    ensures srcId == tgtId ==> r == tasks
  {
    Move(tasks, FindTaskIndex(tasks, srcId), FindTaskIndex(tasks, tgtId))
  }

  /** Moving keeps the ids distinct. */
  lemma MoveKeepsIdsUnique(s: seq<Task>, src: nat, tgt: nat)
    requires src < |s| && tgt < |s| && UniqueIds(s)
    ensures UniqueIds(Move(s, src, tgt))
  {
    var r := Move(s, src, tgt);
    forall a, b | 0 <= a < b < |r|
      ensures r[a].id != r[b].id
    {
      MoveOrigin(s, src, tgt, a);
      MoveOrigin(s, src, tgt, b);
      OriginInjective(src, tgt, a, b);
    }
  }

  /** The index in `s` that index `k` of `Move(s, src, tgt)` was taken from. */
  function Origin(src: nat, tgt: nat, k: nat): nat
  {
    if k == tgt then src
    else
      var m := if k < tgt then k else k - 1;
      if m < src then m else m + 1
  }

  /** Every element of a move comes from its origin. */
  lemma MoveOrigin(s: seq<Task>, src: nat, tgt: nat, k: nat)
    requires src < |s| && tgt < |s| && k < |s|
    ensures Origin(src, tgt, k) < |s|
    ensures Move(s, src, tgt)[k] == s[Origin(src, tgt, k)]
  {
  }

  /** Distinct indices of a move come from distinct origins. */
  lemma OriginInjective(src: nat, tgt: nat, k: nat, k': nat)
    requires k != k'
    ensures Origin(src, tgt, k) != Origin(src, tgt, k')
  {
  }

  /** The pending drag source: `dragSrcId`, null or a task id. */
  datatype DragState = Idle | Dragging(src: int)

  /** The collection together with the pending drag source. */
  datatype Board = Board(tasks: seq<Task>, drag: DragState)

  /** `dragStart` on a row records that row's id, replacing any earlier one. */
  function DragStart(b: Board, id: int): (r: Board)
    ensures r.drag == Dragging(id) && r.tasks == b.tasks
  {
    b.(drag := Dragging(id))
  }

  /** `dragEnd` forgets the pending source and leaves the collection alone. */
  function DragEnd(b: Board): (r: Board)
    ensures r.drag == Idle && r.tasks == b.tasks
  {
    b.(drag := Idle)
  }

  /** A drop that will move something finds both ids in the collection. */
  predicate DropDefined(b: Board, targetId: int)
  {
    b.drag.Dragging? && b.drag.src != targetId ==> HasId(b.tasks, b.drag.src) && HasId(b.tasks, targetId)
  }

  /** `dropItem` on the row of `targetId`. With no pending source, or when the
      source is the target itself, nothing happens. Otherwise the source moves
      to the target's index. The pending source is NOT cleared here: only
      `dragEnd` clears it. */
  function Drop(b: Board, targetId: int): (r: Board)
    requires DropDefined(b, targetId)
    ensures r.drag == b.drag
    ensures b.drag.Idle? || b.drag.src == targetId ==> r == b
    ensures b.drag.Dragging? && b.drag.src != targetId ==>
      r.tasks == ReorderTasks(b.tasks, b.drag.src, targetId)
    ensures b.drag.Dragging? && b.drag.src != targetId ==>
      |r.tasks| == |b.tasks| && multiset(r.tasks) == multiset(b.tasks)
      && r.tasks[FindTaskIndex(b.tasks, targetId)] == b.tasks[FindTaskIndex(b.tasks, b.drag.src)]
      && r.tasks != b.tasks
  {
    if b.drag.Idle? || b.drag.src == targetId then b
    else
      var i := FindTaskIndex(b.tasks, b.drag.src);
      var j := FindTaskIndex(b.tasks, targetId);
      var r := ReorderTasks(b.tasks, b.drag.src, targetId);
      assert r[j] == b.tasks[i];
      assert b.tasks[j].id == targetId != b.tasks[i].id;
      b.(tasks := r)
  }

  /** A whole gesture: drag from `srcId`, drop on `tgtId`, end the drag. The
      collection is reordered only when the ids differ, and the drag state is
      idle again afterwards. */
  lemma Gesture(b: Board, srcId: int, tgtId: int)
    requires HasId(b.tasks, srcId) && HasId(b.tasks, tgtId)
    ensures DropDefined(DragStart(b, srcId), tgtId)
    ensures var r := DragEnd(Drop(DragStart(b, srcId), tgtId));
      r.drag == Idle
      && r.tasks == (if srcId == tgtId then b.tasks else ReorderTasks(b.tasks, srcId, tgtId))
  {
  }
}
