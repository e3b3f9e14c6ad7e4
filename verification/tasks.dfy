/** The task store of script.js: the task record, the add handler's
    validation and record construction, `findTaskIndex`, `toggleDone`,
    `deleteTask` and the clear-all handler, each as a pure function from the
    old collection to the new one. */
module Tasks {
  import opened Wrappers
  import opened Text
  import opened Seqs

  datatype Priority = Low | Normal | High

  /** A task record. `deadline` is a timestamp in milliseconds; the display-only
      creation time is not modelled. */
  datatype Task = Task(id: int, text: string, category: string, priority: Priority,
                       deadline: Option<int>, done: bool)

  /** Trimmed task texts shorter than this are refused. */
  const MinTextLength: nat := 3

  /** The message the add handler shows when it refuses a text. */
  const TooShortMessage: string := "Kirjoita vähintään 3 merkkiä pitkä tehtävä."

  /** Only the exact strings "high" and "low" select those priorities;
      anything else, the empty string included, means normal. */
  function NormalizePriority(input: string): (p: Priority)
    ensures p == High <==> input == "high"
    ensures p == Low <==> input == "low"
  {
    if input == "high" then High else if input == "low" then Low else Normal
  }

  predicate HasId(tasks: seq<Task>, id: int)
  {
    exists i :: 0 <= i < |tasks| && tasks[i].id == id
  }

  /** `k` is the index `Array.prototype.findIndex` reports for `id`. */
  predicate IsFirstWithId(tasks: seq<Task>, k: int, id: int)
  {
    0 <= k < |tasks| && tasks[k].id == id && forall j :: 0 <= j < k ==> tasks[j].id != id
  }

  /** No two tasks share an id. The collection is meant to keep this, but ids
      come from the clock, so nothing in the program enforces it. */
  predicate UniqueIds(tasks: seq<Task>)
  {
    forall i, j :: 0 <= i < j < |tasks| ==> tasks[i].id != tasks[j].id
  }

  /** `findTaskIndex(id)` (and its duplicate `findTaskIndexById`): the index of
      the first task carrying `id`, or -1 when there is none. */
  function FindTaskIndex(tasks: seq<Task>, id: int): (r: int)
    ensures r == -1 <==> !HasId(tasks, id)
    ensures r != -1 ==> IsFirstWithId(tasks, r, id)
  {
    if |tasks| == 0 then -1
    else if tasks[0].id == id then 0
    else
      var k := FindTaskIndex(tasks[1..], id);
      if k == -1 then -1 else k + 1
  }

  datatype AddError = TextTooShort

  /** Validation and record construction of an add: the text is trimmed and
      refused when shorter than three characters; otherwise a not-done task
      with a normalised priority is appended. The priority comes from its own
      input here; see `AddClicked` for the handler as written. */
  function AddTask(tasks: seq<Task>, rawText: string, category: string, priorityInput: string,
                   deadline: Option<int>, id: int): (r: Result<seq<Task>, AddError>)
    ensures r.Err? <==> |Trim(rawText)| < MinTextLength
    ensures r.Ok? ==> |r.value| == |tasks| + 1 && r.value[..|tasks|] == tasks
    ensures r.Ok? ==>
      var t := r.value[|tasks|];
      t.id == id && t.text == Trim(rawText) && |t.text| >= MinTextLength
      && t.category == category && t.deadline == deadline && !t.done
      && (t.priority == High <==> priorityInput == "high")
      && (t.priority == Low <==> priorityInput == "low")
  {
    var text := Trim(rawText);
    if |text| < MinTextLength then Err(TextTooShort)
    else
      var t := Task(id, text, category, NormalizePriority(priorityInput), deadline, false);
      assert (tasks + [t])[..|tasks|] == tasks;
      Ok(tasks + [t])
  }

  /** What the add handler leaves behind: the collection and the error line. */
  datatype AddOutcome = AddOutcome(tasks: seq<Task>, error: string)

  /** The add click handler as written. It reads the priority from the
      category selector, so the selected category is also the priority input. */
  function AddClicked(tasks: seq<Task>, rawText: string, selected: string,
                      deadline: Option<int>, id: int): (r: AddOutcome)
    ensures |Trim(rawText)| < MinTextLength ==> r.tasks == tasks && r.error == TooShortMessage
    ensures |Trim(rawText)| >= MinTextLength ==>
      r.error == [] && |r.tasks| == |tasks| + 1 && r.tasks[..|tasks|] == tasks
      && r.tasks[|tasks|].category == selected
      && r.tasks[|tasks|].priority == NormalizePriority(selected)
      && r.tasks[|tasks|].text == Trim(rawText) && r.tasks[|tasks|].id == id
      && r.tasks[|tasks|].deadline == deadline && !r.tasks[|tasks|].done
  {
    match AddTask(tasks, rawText, selected, selected, deadline, id)
    case Ok(next) => AddOutcome(next, [])
    case Err(_) => AddOutcome(tasks, TooShortMessage)
  }

  /** The handler as written gives every task whose category is neither
      "high" nor "low" the normal priority, whatever priority was meant. */
  lemma AddClickedPriorityFollowsCategory(tasks: seq<Task>, rawText: string, selected: string,
                                          deadline: Option<int>, id: int)
    requires |Trim(rawText)| >= MinTextLength
    requires selected != "high" && selected != "low"
    ensures AddClicked(tasks, rawText, selected, deadline, id).tasks[|tasks|].priority == Normal
  {
  }

  /** With its own priority input, the intended add honours a "high" choice
      for every category. */
  lemma AddTaskHonoursPriority(tasks: seq<Task>, rawText: string, category: string,
                               deadline: Option<int>, id: int)
    requires |Trim(rawText)| >= MinTextLength
    ensures AddTask(tasks, rawText, category, "high", deadline, id).Ok?
    ensures AddTask(tasks, rawText, category, "high", deadline, id).value[|tasks|].priority == High
  {
  }

  /** An add keeps the ids distinct exactly when the new id is fresh. */
  lemma AddKeepsIdsUnique(tasks: seq<Task>, rawText: string, category: string, priorityInput: string,
                          deadline: Option<int>, id: int)
    requires UniqueIds(tasks)
    requires AddTask(tasks, rawText, category, priorityInput, deadline, id).Ok?
    ensures UniqueIds(AddTask(tasks, rawText, category, priorityInput, deadline, id).value) <==> !HasId(tasks, id)
  {
    var r := AddTask(tasks, rawText, category, priorityInput, deadline, id).value;
    assert forall k :: 0 <= k < |tasks| ==> r[k] == tasks[k] by {
      forall k | 0 <= k < |tasks| ensures r[k] == tasks[k] {
        assert r[..|tasks|][k] == r[k];
      }
    }
    if HasId(tasks, id) {
      var i :| 0 <= i < |tasks| && tasks[i].id == id;
      assert r[i].id == r[|tasks|].id;
    }
  }

  /** `toggleDone(id)`: flips `done` on the first task carrying `id` and on
      nothing else; an unknown id changes nothing. */
  function ToggleDone(tasks: seq<Task>, id: int): (r: seq<Task>)
    ensures |r| == |tasks|
    ensures forall k :: 0 <= k < |tasks| ==>
      r[k] == (if IsFirstWithId(tasks, k, id) then tasks[k].(done := !tasks[k].done) else tasks[k])
    ensures !HasId(tasks, id) ==> r == tasks
  {
    var idx := FindTaskIndex(tasks, id);
    if idx == -1 then tasks
    else tasks[idx := tasks[idx].(done := !tasks[idx].done)]
  }

  /** Toggling twice restores the collection. */
  lemma ToggleTwice(tasks: seq<Task>, id: int)
    ensures ToggleDone(ToggleDone(tasks, id), id) == tasks
  {
    var once := ToggleDone(tasks, id);
    var twice := ToggleDone(once, id);
    forall k | 0 <= k < |tasks|
      ensures twice[k] == tasks[k]
    {
      assert IsFirstWithId(once, k, id) <==> IsFirstWithId(tasks, k, id) by {
        assert forall j :: 0 <= j < |tasks| ==> once[j].id == tasks[j].id;
      }
    }
  }

  /** Toggling keeps the ids distinct. */
  lemma ToggleKeepsIdsUnique(tasks: seq<Task>, id: int)
    requires UniqueIds(tasks)
    ensures UniqueIds(ToggleDone(tasks, id))
  {
    var r := ToggleDone(tasks, id);
    assert forall k :: 0 <= k < |tasks| ==> r[k].id == tasks[k].id;
  }

  /** The test `deleteTask` filters by: the task does not carry `id`. */
  function OtherIdFn(id: int): Task -> bool
  {
    (t: Task) => t.id != id
  }

  /** `deleteTask(id)`: keeps exactly the tasks whose id differs, in order.
      The subsequence and the count together fix the result: every kept
      position survives, duplicates included. */
  function DeleteTask(tasks: seq<Task>, id: int): (r: seq<Task>)
    ensures forall t :: t in r <==> t in tasks && t.id != id
    ensures IsSubseq(r, tasks)
    ensures |r| == CountIf(tasks, OtherIdFn(id))
    ensures !HasId(r, id)
    ensures !HasId(tasks, id) ==> r == tasks
  {
    var keep := OtherIdFn(id);
    if !HasId(tasks, id) then FilterKeepsAll(tasks, keep); Filter(tasks, keep)
    else Filter(tasks, keep)
  }

  /** Deleting the same id a second time changes nothing. */
  lemma DeleteIdempotent(tasks: seq<Task>, id: int)
    ensures DeleteTask(DeleteTask(tasks, id), id) == DeleteTask(tasks, id)
  {
  }

  /** When ids are distinct, deleting a present id removes exactly one task. */
  lemma {:induction false} DeleteRemovesOne(tasks: seq<Task>, id: int)
    requires UniqueIds(tasks) && HasId(tasks, id)
    ensures |DeleteTask(tasks, id)| == |tasks| - 1
  {
    var keep := OtherIdFn(id);
    if tasks[0].id == id {
      assert !HasId(tasks[1..], id) by {
        assert forall j :: 0 <= j < |tasks| - 1 ==> tasks[1..][j] == tasks[j + 1];
      }
      FilterKeepsAll(tasks[1..], keep);
    } else {
      assert HasId(tasks[1..], id) by {
        var i :| 0 <= i < |tasks| && tasks[i].id == id;
        assert tasks[1..][i - 1] == tasks[i];
      }
      DeleteRemovesOne(tasks[1..], id);
    }
  }

  /** Deleting keeps the ids distinct. */
  lemma {:induction false} DeleteKeepsIdsUnique(tasks: seq<Task>, id: int)
    requires UniqueIds(tasks)
    ensures UniqueIds(DeleteTask(tasks, id))
  {
    if |tasks| > 0 {
      var rest := tasks[1..];
      TailKeepsIdsUnique(tasks);
      DeleteKeepsIdsUnique(rest, id);
      var tail := DeleteTask(rest, id);
      if tasks[0].id != id {
        assert DeleteTask(tasks, id) == [tasks[0]] + tail;
        forall t | t in tail
          ensures t.id != tasks[0].id
        {
          HeadIdNotInTail(tasks, t);
        }
        ConsKeepsIdsUnique(tasks[0], tail);
      } else {
        assert DeleteTask(tasks, id) == tail;
      }
    }
  }

  lemma TailKeepsIdsUnique(tasks: seq<Task>)
    requires |tasks| > 0 && UniqueIds(tasks)
    ensures UniqueIds(tasks[1..])
  {
    assert forall k :: 0 <= k < |tasks| - 1 ==> tasks[1..][k] == tasks[k + 1];
  }

  lemma HeadIdNotInTail(tasks: seq<Task>, t: Task)
    requires |tasks| > 0 && UniqueIds(tasks) && t in tasks[1..]
    ensures t.id != tasks[0].id
  {
    var m :| 0 <= m < |tasks| - 1 && tasks[1..][m] == t;
    assert tasks[m + 1] == t;
  }

  lemma ConsKeepsIdsUnique(t: Task, tail: seq<Task>)
    requires UniqueIds(tail) && forall u :: u in tail ==> u.id != t.id
    ensures UniqueIds([t] + tail)
  {
    var r := [t] + tail;
    forall i, j | 0 <= i < j < |r|
      ensures r[i].id != r[j].id
    {
      assert r[j] == tail[j - 1];
      if i > 0 {
        assert r[i] == tail[i - 1];
      }
    }
  }

  /** The clear-all handler: a confirmed clear empties the collection, a
      declined one leaves it as it was. */
  function ClearAll(tasks: seq<Task>, confirmed: bool): (r: seq<Task>)
    ensures confirmed ==> r == []
    ensures !confirmed ==> r == tasks
  {
    if confirmed then [] else tasks
  }
}
