/** The derived view of `renderTasks`: the status, category and search
    filters applied in turn, the per-row display flags, and `updateCounter`. */
module View {
  import opened Wrappers
  import opened Text
  import opened Seqs
  import opened Tasks
  import opened Deadlines

  /** The status buttons: all, active (not done) or done. */
  datatype StatusFilter = All | Active | Done

  /** The filter state a render reads: the status button, the category
      selector (`"all"` or a category) and the raw search box text. */
  datatype Filters = Filters(status: StatusFilter, category: string, query: string)

  /** The category selector value that switches the category filter off. */
  const AnyCategory: string := "all"

  predicate StatusOk(status: StatusFilter, t: Task)
  {
    match status
    case Active => !t.done
    case Done => t.done
    case All => true
  }

  /** The search box text as it is matched: trimmed, then lower-cased. */
  function SearchTerm(query: string): string
  {
    Lower(Trim(query))
  }

  /** The combined test: a task is visible when it passes all three stages. */
  predicate Passes(fs: Filters, t: Task)
  {
    StatusOk(fs.status, t)
    && (fs.category == AnyCategory || t.category == fs.category)
    && Includes(Lower(t.text), SearchTerm(fs.query))
  }

  function PassesFn(fs: Filters): Task -> bool
  {
    (t: Task) => Passes(fs, t)
  }

  function StatusFn(status: StatusFilter): Task -> bool
  {
    (t: Task) => StatusOk(status, t)
  }

  function InCategoryFn(category: string): Task -> bool
  {
    (t: Task) => t.category == category
  }

  function CategoryOkFn(category: string): Task -> bool
  {
    (t: Task) => category == AnyCategory || t.category == category
  }

  function MatchesFn(q: string): Task -> bool
  {
    (t: Task) => Includes(Lower(t.text), q)
  }

  /** Stage 1: the status filter. */
  function ByStatus(tasks: seq<Task>, status: StatusFilter): seq<Task>
  {
    Filter(tasks, StatusFn(status))
  }

  /** Stage 2: the category filter, skipped when the selector reads "all". */
  function ByCategory(tasks: seq<Task>, category: string): seq<Task>
  {
    if category != AnyCategory then Filter(tasks, InCategoryFn(category)) else tasks
  }

  /** Stage 3: the search filter, skipped when the trimmed query is empty. */
  function BySearch(tasks: seq<Task>, query: string): seq<Task>
  {
    var q := SearchTerm(query);
    if q != [] then Filter(tasks, MatchesFn(q)) else tasks
  }

  /** The visible list: the three stages in the order `renderTasks` applies them. */
  function VisibleTasks(tasks: seq<Task>, fs: Filters): (v: seq<Task>)
    ensures v == Filter(tasks, PassesFn(fs))
    ensures IsSubseq(v, tasks)
    ensures forall t :: t in v <==> t in tasks && Passes(fs, t)
  {
    StagesAreOneFilter(tasks, fs);
    BySearch(ByCategory(ByStatus(tasks, fs.status), fs.category), fs.query)
  }

  /** Skipping the search stage on an empty query is the same as running it:
      the empty string occurs in every text. */
  lemma {:induction false} SearchStageIsFilter(tasks: seq<Task>, query: string)
    ensures BySearch(tasks, query) == Filter(tasks, MatchesFn(SearchTerm(query)))
  {
    var q := SearchTerm(query);
    if q == [] {
      forall i | 0 <= i < |tasks|
        ensures Includes(Lower(tasks[i].text), q)
      {
        IncludesEmpty(Lower(tasks[i].text));
      }
      FilterKeepsAll(tasks, MatchesFn(q));
    }
  }

  lemma {:induction false} CategoryStageIsFilter(tasks: seq<Task>, category: string)
    ensures ByCategory(tasks, category) == Filter(tasks, CategoryOkFn(category))
  {
    if category == AnyCategory {
      FilterKeepsAll(tasks, CategoryOkFn(category));
    } else {
      FilterCongruent(tasks, InCategoryFn(category), CategoryOkFn(category));
    }
  }

  lemma {:induction false} StagesAreOneFilter(tasks: seq<Task>, fs: Filters)
    ensures BySearch(ByCategory(ByStatus(tasks, fs.status), fs.category), fs.query)
         == Filter(tasks, PassesFn(fs))
  {
    var ps := StatusFn(fs.status);
    var pc := CategoryOkFn(fs.category);
    var pq := MatchesFn(SearchTerm(fs.query));
    var psc := (t: Task) => ps(t) && pc(t);
    var s1 := ByStatus(tasks, fs.status);
    CategoryStageIsFilter(s1, fs.category);
    FilterFilter(tasks, ps, pc, psc);
    var s2 := ByCategory(s1, fs.category);
    SearchStageIsFilter(s2, fs.query);
    FilterFilter(tasks, psc, pq, PassesFn(fs));
  }

  /** What one visible row shows besides its text: the priority class, the
      done class, the overdue class and the "deadline approaching" warning. */
  datatype Row = Row(id: int, text: string, priority: Priority, done: bool, overdue: bool, warning: bool)

  /** The display flags of one task at time `now`. */
  function RowFor(t: Task, now: int): (row: Row)
    ensures row.id == t.id && row.text == t.text && row.priority == t.priority && row.done == t.done
    ensures row.overdue <==> !t.done && IsOverdue(t.deadline, now)
    ensures row.warning <==> !t.done && IsImminent(t.deadline, now)
    ensures t.deadline.None? ==> !row.overdue && !row.warning
    ensures !(row.overdue && row.warning)
  {
    var overdue := IsOverdue(t.deadline, now) && !t.done;
    var warning := t.deadline.Some? && IsImminent(t.deadline, now) && !t.done && !IsOverdue(t.deadline, now);
    Row(t.id, t.text, t.priority, t.done, overdue, warning)
  }

  /** The rows a render draws: one per visible task, in the visible order. */
  function RenderRows(tasks: seq<Task>, fs: Filters, now: int): (rows: seq<Row>)
    ensures var v := VisibleTasks(tasks, fs);
      |rows| == |v|
      && (forall i :: 0 <= i < |rows| ==> rows[i] == RowFor(v[i], now))
      && (forall i :: 0 <= i < |rows| ==> rows[i].id == v[i].id && rows[i].text == v[i].text)
      && (forall i :: 0 <= i < |rows| ==> rows[i].priority == v[i].priority && rows[i].done == v[i].done)
      && (forall i :: 0 <= i < |rows| ==> (rows[i].overdue <==> !v[i].done && IsOverdue(v[i].deadline, now)))
      && (forall i :: 0 <= i < |rows| ==> (rows[i].warning <==> !v[i].done && IsImminent(v[i].deadline, now)))
      && (forall i :: 0 <= i < |rows| ==> !(rows[i].overdue && rows[i].warning))
  {
    RowsOf(VisibleTasks(tasks, fs), now)
  }

  /** The row of each task, in order. */
  function RowsOf(v: seq<Task>, now: int): (rows: seq<Row>)
    ensures |rows| == |v| && forall i :: 0 <= i < |v| ==> rows[i] == RowFor(v[i], now)
  {
    if |v| == 0 then [] else [RowFor(v[0], now)] + RowsOf(v[1..], now)
  }

  /** The "open / total" counter. */
  datatype Counts = Counts(open: nat, total: nat)

  /** `updateCounter`: counts the whole collection, whatever the filters. */
  function Counter(tasks: seq<Task>): (c: Counts)
    ensures c.total == |tasks|
    ensures c.open + CountIf(tasks, StatusFn(Done)) == c.total
  {
    CountIfComplement(tasks, StatusFn(Active), StatusFn(Done));
    Counts(|Filter(tasks, StatusFn(Active))|, |tasks|)
  }

  /** The open count is the length of the active view with no category or search. */
  lemma CounterMatchesActiveView(tasks: seq<Task>)
    ensures Counter(tasks).open == |VisibleTasks(tasks, Filters(Active, AnyCategory, ""))|
  {
    var fs := Filters(Active, AnyCategory, "");
    assert SearchTerm("") == [];
    forall i | 0 <= i < |tasks|
      ensures PassesFn(fs)(tasks[i]) == StatusFn(Active)(tasks[i])
    {
      IncludesEmpty(Lower(tasks[i].text));
    }
    FilterCongruent(tasks, PassesFn(fs), StatusFn(Active));
  }

  lemma {:induction false} CountIfUpdate(s: seq<Task>, k: nat, x: Task, p: Task -> bool)
    requires k < |s|
    ensures CountIf(s[k := x], p) == CountIf(s, p) - (if p(s[k]) then 1 else 0) + (if p(x) then 1 else 0)
  {
    if k > 0 {
      assert s[k := x][1..] == s[1..][k - 1 := x];
      CountIfUpdate(s[1..], k - 1, x, p);
    } else {
      assert s[k := x][1..] == s[1..];
    }
  }

  lemma {:induction false} CountIfAppend(s: seq<Task>, x: Task, p: Task -> bool)
    ensures CountIf(s + [x], p) == CountIf(s, p) + (if p(x) then 1 else 0)
  {
    if |s| > 0 {
      assert (s + [x])[1..] == s[1..] + [x];
      CountIfAppend(s[1..], x, p);
    } else {
      assert [] + [x] == [x];
    }
  }

  /** Toggling a present id moves exactly one task between open and done. */
  lemma ToggleCounter(tasks: seq<Task>, id: int)
    requires HasId(tasks, id)
    ensures Counter(ToggleDone(tasks, id)).total == Counter(tasks).total
    ensures var k := FindTaskIndex(tasks, id);
      Counter(ToggleDone(tasks, id)).open == Counter(tasks).open + (if tasks[k].done then 1 else -1)
  {
    var k := FindTaskIndex(tasks, id);
    var r := ToggleDone(tasks, id);
    assert r == tasks[k := tasks[k].(done := !tasks[k].done)];
    CountIfUpdate(tasks, k, tasks[k].(done := !tasks[k].done), StatusFn(Done));
  }

  /** A successful add adds one open task and one to the total. */
  lemma AddCounter(tasks: seq<Task>, rawText: string, category: string, priorityInput: string,
                   deadline: Option<int>, id: int)
    requires AddTask(tasks, rawText, category, priorityInput, deadline, id).Ok?
    ensures var c := Counter(AddTask(tasks, rawText, category, priorityInput, deadline, id).value);
      c.open == Counter(tasks).open + 1 && c.total == Counter(tasks).total + 1
  {
    var r := AddTask(tasks, rawText, category, priorityInput, deadline, id).value;
    assert r == r[..|tasks|] + [r[|tasks|]];
    CountIfAppend(tasks, r[|tasks|], StatusFn(Done));
  }

  /** A confirmed clear leaves nothing to count. */
  lemma ClearCounter(tasks: seq<Task>)
    ensures Counter(ClearAll(tasks, true)) == Counts(0, 0)
  {
  }

  /** A worked example: with A open at "home", B done and C open at "work",
      the active view is [A, C]; restricting it to "work" leaves [C]; a search
      for "xyz" that matches nothing leaves []. */
  lemma ActiveWorkScenario(a: Task, b: Task, c: Task)
    requires !a.done && a.category == "home"
    requires b.done
    requires !c.done && c.category == "work" && c.text == "Write report"
    ensures VisibleTasks([a, b, c], Filters(Active, AnyCategory, "")) == [a, c]
    ensures VisibleTasks([a, b, c], Filters(Active, "work", "")) == [c]
    ensures VisibleTasks([a, b, c], Filters(Active, "work", "xyz")) == []
  {
    ActiveStage(a, b, c);
    WorkStage(a, c);
    EmptyQueryStage([a, c]);
    EmptyQueryStage([c]);
    SearchMissStage(c);
  }

  lemma SearchMissStage(c: Task)
    requires c.text == "Write report"
    ensures BySearch([c], "xyz") == []
  {
    SearchMiss(c);
    assert Filter([c], MatchesFn("xyz")) == Filter([c][1..], MatchesFn("xyz"));
  }

  lemma WorkStage(a: Task, c: Task)
    requires a.category == "home" && c.category == "work"
    ensures ByCategory([a, c], "work") == [c]
  {
    var p := InCategoryFn("work");
    assert !p(a) && p(c);
    assert [a, c][1..] == [c];
    assert Filter([c], p) == [c] + Filter([c][1..], p);
  }

  lemma EmptyQueryStage(tasks: seq<Task>)
    ensures BySearch(tasks, "") == tasks
  {
    assert Trim("") == [];
  }

  lemma ActiveStage(a: Task, b: Task, c: Task)
    requires !a.done && b.done && !c.done
    ensures ByStatus([a, b, c], Active) == [a, c]
  {
    var s := [a, b, c];
    var p := StatusFn(Active);
    assert p(a) && !p(b) && p(c);
    assert s[1..] == [b, c] && [b, c][1..] == [c];
    assert Filter([c], p) == [c] + Filter([c][1..], p);
    assert Filter([b, c], p) == Filter([c], p);
  }

  lemma SearchMiss(c: Task)
    requires c.text == "Write report"
    ensures SearchTerm("xyz") == "xyz"
    ensures !MatchesFn("xyz")(c)
  {
    XyzTerm();
    var t := Lower(c.text);
    NoLowerX(c.text);
    forall i | 0 <= i <= |t| - 3
      ensures !OccursAt("xyz", t, i)
    {
      assert t[i..i + 3][0] == t[i];
    }
  }

  lemma XyzTerm()
    ensures SearchTerm("xyz") == "xyz"
  {
    assert !IsJsWhitespace('x') && !IsJsWhitespace('z');
    assert SkipForward("xyz", 0) == 0;
    assert SkipBackward("xyz", 0, 3) == 3;
  }

  lemma NoLowerX(s: string)
    requires s == "Write report"
    ensures forall i :: 0 <= i < |s| ==> Lower(s)[i] != 'x'
  {
    assert forall i :: 0 <= i < |s| ==> s[i] != 'x' && s[i] != 'X';
    LowerKeepsXAbsent(s);
  }

  lemma LowerKeepsXAbsent(s: string)
    requires forall i :: 0 <= i < |s| ==> s[i] != 'x' && s[i] != 'X'
    ensures forall i :: 0 <= i < |s| ==> Lower(s)[i] != 'x'
  {
  }
}
