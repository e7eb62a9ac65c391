/** The project task board: tasks split into three status columns, and the form that adds a task. */
module TaskBoard {
  import opened Text
  import opened Sequences

  /** A task as the server returns it; the status is the stored text. */
  datatype Task = Task(id: string, title: string, description: string, status: string,
                       assignee: string, priority: string, projectId: string)

  /** The add-task form: a task without an id. */
  datatype Draft = Draft(title: string, description: string, status: string,
                         assignee: string, priority: string, projectId: string)

  /** The form's initial and reset value for the board's project. */
  function EmptyDraft(projectId: string): (d: Draft)
    ensures d.title == "" && d.description == "" && d.assignee == ""
    ensures d.status == "todo" && d.priority == "medium" && d.projectId == projectId
  {
    Draft("", "", "todo", "", "medium", projectId)
  }

  function HasStatus(status: string): Task -> bool {
    (t: Task) => t.status == status
  }

  /** `getTasksByStatus(status)`: the tasks with that status, in board order. */
  function TasksByStatus(tasks: seq<Task>, status: string): (r: seq<Task>)
    ensures forall i :: 0 <= i < |r| ==> r[i].status == status && r[i] in tasks
    ensures forall i :: 0 <= i < |tasks| && tasks[i].status == status ==> tasks[i] in r
  {
    Filter(tasks, HasStatus(status))
  }

  /** The three column statuses. */
  predicate Shown(t: Task) {
    t.status == "todo" || t.status == "in-progress" || t.status == "done"
  }

  /** The tasks the three columns show together, counted with multiplicity. */
  function Columns(tasks: seq<Task>): multiset<Task> {
    multiset(TasksByStatus(tasks, "todo")) + multiset(TasksByStatus(tasks, "in-progress")) +
    multiset(TasksByStatus(tasks, "done"))
  }

  /** The tasks the three columns show are exactly the board's tasks with one of the three statuses, each once per occurrence. */
  lemma {:induction false} ColumnsPartition(tasks: seq<Task>)
    ensures Columns(tasks) == multiset(Filter(tasks, Shown))
  {
    if tasks != [] {
      var t, rest := tasks[0], tasks[1..];
      ColumnsPartition(rest);
      FilterHead(tasks, "todo");
      FilterHead(tasks, "in-progress");
      FilterHead(tasks, "done");
      var todo, progress, done := Share(t, "todo"), Share(t, "in-progress"), Share(t, "done");
      calc {
        Columns(tasks);
        (todo + multiset(TasksByStatus(rest, "todo"))) + (progress + multiset(TasksByStatus(rest, "in-progress")))
          + (done + multiset(TasksByStatus(rest, "done")));
        (todo + progress + done) + Columns(rest);
        { HeadShares(t); }
        (if Shown(t) then multiset{t} else multiset{}) + multiset(Filter(rest, Shown));
        multiset(Filter(tasks, Shown));
      }
    }
  }

  /** What one task adds to the column of `status`. */
  function Share(t: Task, status: string): multiset<Task> {
    if t.status == status then multiset{t} else multiset{}
  }

  /** A task adds itself to at most one column, and to one exactly when it is shown. */
  lemma HeadShares(t: Task)
    ensures Share(t, "todo") + Share(t, "in-progress") + Share(t, "done") == if Shown(t) then multiset{t} else multiset{}
  {
  }

  /** A non-empty board splits into its first task's share of a column and the rest's. */
  lemma FilterHead(tasks: seq<Task>, status: string)
    requires tasks != []
    ensures multiset(TasksByStatus(tasks, status)) == Share(tasks[0], status) + multiset(TasksByStatus(tasks[1..], status))
  {
  }

  /** A shown task occurs in the columns exactly as often as on the board; any other task never. */
  lemma ShownExactlyOnce(tasks: seq<Task>, t: Task)
    ensures Shown(t) ==> Columns(tasks)[t] == multiset(tasks)[t]
    ensures !Shown(t) ==> Columns(tasks)[t] == 0
  {
    ColumnsPartition(tasks);
    FilterCounts(tasks, t);
  }

  lemma {:induction false} FilterCounts(tasks: seq<Task>, t: Task)
    ensures multiset(Filter(tasks, Shown))[t] == if Shown(t) then multiset(tasks)[t] else 0
  {
    if tasks != [] {
      var h, rest := tasks[0], tasks[1..];
      FilterCounts(rest, t);
      assert tasks == [h] + rest;
      var kept := if Shown(h) then multiset{h} else multiset{};
      assert multiset(Filter(tasks, Shown))[t] == kept[t] + multiset(Filter(rest, Shown))[t];
      assert multiset(tasks)[t] == multiset{h}[t] + multiset(rest)[t];
    }
  }

  /** Appending a task puts it at the end of its own column and leaves the other columns as they were. */
  lemma AppendedTaskEndsItsColumn(tasks: seq<Task>, t: Task, status: string)
    ensures TasksByStatus(tasks + [t], status) == TasksByStatus(tasks, status) + (if t.status == status then [t] else [])
  {
    FilterConcat(tasks, [t], HasStatus(status));
    FilterSingleton(t, HasStatus(status));
  }

  /** The board component's state. */
  class TaskBoardComponent {
    const projectId: string
    var tasks: seq<Task>
    var newTask: Draft

    constructor(projectId: string)
      ensures this.projectId == projectId && tasks == [] && newTask == EmptyDraft(projectId)
    {
      this.projectId := projectId;
      tasks := [];
      newTask := EmptyDraft(projectId);
    }

    /** The fetch effect: the board shows the tasks the server returned, unchanged on failure. */
    method Loaded(response: Option<seq<Task>>)
      modifies this
      ensures tasks == (if response.Some? then response.value else old(tasks))
      ensures newTask == old(newTask)
    {
      if response.Some? {
        tasks := response.value;
      }
    }

    /**
     * `addTask`: no request for a blank title; otherwise the form is posted,
     * and on success the returned task is appended and the form reset for
     * the same project. `response` is the server's answer, `None` on failure.
     */
    method AddTask(response: Option<Task>) returns (posted: Option<Draft>)
      modifies this
      ensures IsBlank(old(newTask.title)) <==> posted.None?
      ensures posted.Some? ==> posted.value == old(newTask)
      ensures posted.Some? && response.Some? ==>
        tasks == old(tasks) + [response.value] && newTask == EmptyDraft(projectId)
      ensures posted.None? || response.None? ==> tasks == old(tasks) && newTask == old(newTask)
    {
      if IsBlank(newTask.title) {
        return None;
      }
      posted := Some(newTask);
      if response.Some? {
        tasks := tasks + [response.value];
        newTask := Draft("", "", "todo", "", "medium", projectId);
      }
    }
  }
}
