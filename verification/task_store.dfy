/**
 * The in-memory task and settings store behind the task manager window:
 * a list of task rows keyed by an integer id, the counter that hands out
 * new ids, and a string-keyed settings table. Also the rule that marks a
 * pending task completed.
 */
module TaskStore {

  datatype Option<T> = None | Some(value: T)

  /**
   * The nine fields a caller supplies for a task, in row order after the id.
   * `status` is the lower-case workflow status, `displayStatus` the
   * capitalised one the window filters and counts on. Callers put the day the
   * task was entered in `startDate` and repeat the due date in `endDate`.
   */
  datatype TaskData = TaskData(
    title: string,
    dueDate: string,
    priority: string,
    category: string,
    status: string,
    displayStatus: string,
    description: string,
    startDate: string,
    endDate: string)

  datatype Row = Row(id: int, data: TaskData)

  datatype Store = Store(tasks: seq<Row>, nextId: int, settings: map<string, string>)

  /** Value returned for a setting that was never stored. */
  const DefaultSettingValue := "25"

  const Pending := "Pending"
  const Completed := "Completed"

  /** Row ids strictly increase along the list and are all below the counter. */
  predicate Valid(s: Store)
  {
    && (forall i, j :: 0 <= i < j < |s.tasks| ==> s.tasks[i].id < s.tasks[j].id)
    && (forall i :: 0 <= i < |s.tasks| ==> s.tasks[i].id < s.nextId)
  }

  predicate HasId(tasks: seq<Row>, id: int)
  {
    exists i :: 0 <= i < |tasks| && tasks[i].id == id
  }

  /**
   * The store as the application creates it: five sample tasks and three
   * settings, the string form of `Pomodoro.DefaultSettings`.
   */
  function Initial(): (s: Store)
    ensures Valid(s)
    ensures |s.tasks| == 5 && s.nextId == 6
    ensures s.settings.Keys == {"work_duration", "break_duration", "long_break_duration"}
  {
    Store(
      [ Row(1, TaskData("Complete project proposal", "2024-02-15", "High", "Work", "pending", Pending,
                        "Important project deadline", "2024-02-10", "2024-02-15")),
        Row(2, TaskData("Review code changes", "2024-02-12", "Medium", "Development", "pending", Pending,
                        "Code review for new features", "2024-02-11", "2024-02-12")),
        Row(3, TaskData("Team meeting", "2024-02-13", "High", "Meeting", "completed", Completed,
                        "Weekly team sync", "2024-02-13", "2024-02-13")),
        Row(4, TaskData("Update documentation", "2024-02-14", "Low", "Documentation", "pending", Pending,
                        "Update user manual", "2024-02-14", "2024-02-14")),
        Row(5, TaskData("Prepare presentation", "2024-02-16", "High", "Work", "pending", Pending,
                        "Quarterly review presentation", "2024-02-15", "2024-02-16")) ],
      6,
      map["work_duration" := "25", "break_duration" := "5", "long_break_duration" := "15"])
  }

  /** Position of the first row carrying `id`, scanning from the front. */
  function FindIndex(tasks: seq<Row>, id: int): (r: Option<nat>)
    ensures r.Some? ==> r.value < |tasks| && tasks[r.value].id == id
    ensures r.Some? ==> forall j :: 0 <= j < r.value ==> tasks[j].id != id
    ensures r.None? <==> !HasId(tasks, id)
    decreases |tasks|
  {
    if |tasks| == 0 then None
    else if tasks[0].id == id then Some(0)
    else match FindIndex(tasks[1..], id)
      case None => None
      case Some(i) => Some(i + 1)
  }

  /** The row with the given id, if there is one. */
  function GetTaskById(s: Store, id: int): (r: Option<Row>)
    ensures r.Some? ==> r.value in s.tasks && r.value.id == id
    ensures r.Some? ==> exists k :: 0 <= k < |s.tasks| && s.tasks[k] == r.value &&
                                    forall j :: 0 <= j < k ==> s.tasks[j].id != id
    ensures r.None? <==> !HasId(s.tasks, id)
  {
    match FindIndex(s.tasks, id)
    case None => None
    case Some(i) => Some(s.tasks[i])
  }

  /** Appends a row under the next id and advances the counter; always succeeds. */
  function AddTask(s: Store, data: TaskData): (r: (Store, bool))
    ensures r.1
    ensures r.0.tasks == s.tasks + [Row(s.nextId, data)]
    ensures r.0.nextId == s.nextId + 1
    ensures r.0.settings == s.settings
    ensures Valid(s) ==> Valid(r.0) && !HasId(s.tasks, s.nextId)
  {
    (s.(tasks := s.tasks + [Row(s.nextId, data)], nextId := s.nextId + 1), true)
  }

  /**
   * Replaces the data of the first row with the given id, keeping the id.
   * Reports false and leaves the store alone when no row has it.
   */
  function UpdateTask(s: Store, id: int, data: TaskData): (r: (Store, bool))
    ensures r.1 <==> HasId(s.tasks, id)
    ensures !r.1 ==> r.0 == s
    ensures r.1 ==>
              && |r.0.tasks| == |s.tasks|
              && (forall j :: 0 <= j < |s.tasks| ==> r.0.tasks[j].id == s.tasks[j].id)
              && (forall j :: 0 <= j < |s.tasks| && s.tasks[j].id != id ==> r.0.tasks[j] == s.tasks[j])
              && Row(id, data) in r.0.tasks
    ensures r.0.nextId == s.nextId && r.0.settings == s.settings
    ensures Valid(s) ==> Valid(r.0)
  {
    match FindIndex(s.tasks, id)
    case None => (s, false)
    case Some(i) => (s.(tasks := s.tasks[i := Row(id, data)]), true)
  }

  /**
   * Removes the first row with the given id. Reports false and leaves the
   * store alone when no row has it.
   */
  function DeleteTask(s: Store, id: int): (r: (Store, bool))
    ensures r.1 <==> HasId(s.tasks, id)
    ensures !r.1 ==> r.0 == s
    ensures r.1 ==> |r.0.tasks| + 1 == |s.tasks|
    ensures r.0.nextId == s.nextId && r.0.settings == s.settings
  {
    match FindIndex(s.tasks, id)
    case None => (s, false)
    case Some(i) => (s.(tasks := s.tasks[..i] + s.tasks[i + 1..]), true)
  }

  /** A stored setting, or "25" for a name never stored. */
  function GetSetting(s: Store, name: string): (v: string)
    ensures name in s.settings ==> v == s.settings[name]
    ensures name !in s.settings ==> v == DefaultSettingValue
  {
    if name in s.settings then s.settings[name] else DefaultSettingValue
  }

  /** Stores a setting under its name, replacing any earlier value; always succeeds. */
  function UpdateSetting(s: Store, name: string, value: string): (r: (Store, bool))
    ensures r.1
    ensures GetSetting(r.0, name) == value
    ensures forall other :: other != name ==> GetSetting(r.0, other) == GetSetting(s, other)
    ensures r.0.tasks == s.tasks && r.0.nextId == s.nextId
  {
    (s.(settings := s.settings[name := value]), true)
  }

  datatype MarkOutcome = Marked | NotPendingOrMissing | UpdateFailed

  /**
   * Marks a pending task completed by rewriting its row with the display
   * status set to "Completed" and every other field copied. A missing task,
   * or one whose display status is not "Pending", is left alone.
   */
  function MarkTaskCompletedById(s: Store, id: int): (r: (Store, MarkOutcome))
    ensures r.1 != UpdateFailed
    ensures r.1 == Marked <==>
              GetTaskById(s, id).Some? && GetTaskById(s, id).value.data.displayStatus == Pending
    ensures r.1 != Marked ==> r.0 == s
    ensures r.1 == Marked ==>
              && |r.0.tasks| == |s.tasks|
              && (forall j :: 0 <= j < |s.tasks| && s.tasks[j].id != id ==> r.0.tasks[j] == s.tasks[j])
              && Row(id, GetTaskById(s, id).value.data.(displayStatus := Completed)) in r.0.tasks
    ensures r.0.nextId == s.nextId && r.0.settings == s.settings
    ensures Valid(s) ==> Valid(r.0)
  {
    match GetTaskById(s, id)
    case None => (s, NotPendingOrMissing)
    case Some(task) =>
      if task.data.displayStatus == Pending then
        var (s', ok) := UpdateTask(s, id, task.data.(displayStatus := Completed));
        if ok then (s', Marked) else (s, UpdateFailed)
      else
        (s, NotPendingOrMissing)
  }

  // ---------------------------------------------------------------------
  // Lookups after each operation
  // ---------------------------------------------------------------------

  /** In a valid store, a lookup finds exactly the row that carries the id. */
  lemma GetFindsUniqueRow(s: Store, k: int)
    requires Valid(s) && 0 <= k < |s.tasks|
    ensures GetTaskById(s, s.tasks[k].id) == Some(s.tasks[k])
  {
  }

  /** The id handed out by an add finds the new row. */
  lemma GetAfterAdd(s: Store, data: TaskData)
    requires Valid(s)
    ensures GetTaskById(AddTask(s, data).0, s.nextId) == Some(Row(s.nextId, data))
  {
    var r := AddTask(s, data).0;
    GetFindsUniqueRow(r, |r.tasks| - 1);
  }

  /** An add does not change what any existing id finds. */
  lemma {:induction false} FindIndexAfterAppend(tasks: seq<Row>, row: Row, id: int)
    requires HasId(tasks, id)
    ensures FindIndex(tasks + [row], id) == FindIndex(tasks, id)
    decreases |tasks|
  {
    if tasks[0].id != id {
      var j :| 0 <= j < |tasks| && tasks[j].id == id;
      assert tasks[1..][j - 1] == tasks[j];
      assert (tasks + [row])[1..] == tasks[1..] + [row];
      FindIndexAfterAppend(tasks[1..], row, id);
    }
  }

  lemma GetOthersAfterAdd(s: Store, data: TaskData, id: int)
    requires HasId(s.tasks, id)
    ensures GetTaskById(AddTask(s, data).0, id) == GetTaskById(s, id)
  {
    FindIndexAfterAppend(s.tasks, Row(s.nextId, data), id);
  }

  /** After an update of an existing id, looking that id up yields the new data. */
  lemma GetAfterUpdate(s: Store, id: int, data: TaskData)
    requires Valid(s) && HasId(s.tasks, id)
    ensures GetTaskById(UpdateTask(s, id, data).0, id) == Some(Row(id, data))
  {
  }

  /** Rewriting a row while keeping its id does not change where any id is found. */
  lemma {:induction false} FindIndexAfterKeyedWrite(tasks: seq<Row>, i: nat, row: Row, id: int)
    requires i < |tasks| && row.id == tasks[i].id
    ensures FindIndex(tasks[i := row], id) == FindIndex(tasks, id)
    decreases |tasks|
  {
    if i > 0 && tasks[0].id != id {
      assert tasks[i := row][1..] == tasks[1..][i - 1 := row];
      FindIndexAfterKeyedWrite(tasks[1..], i - 1, row, id);
    }
  }

  /** An update of one id leaves what every other id finds unchanged. */
  lemma GetOthersAfterUpdate(s: Store, id: int, data: TaskData, other: int)
    requires other != id
    ensures GetTaskById(UpdateTask(s, id, data).0, other) == GetTaskById(s, other)
  {
  }

  /** Removing a row with one id leaves the first row with any other id first. */
  lemma {:induction false} FindAfterRemove(tasks: seq<Row>, i: nat, other: int)
    requires i < |tasks| && tasks[i].id != other
    ensures match FindIndex(tasks[..i] + tasks[i + 1..], other)
              case None => FindIndex(tasks, other).None?
              case Some(k) => FindIndex(tasks, other).Some? &&
                              tasks[FindIndex(tasks, other).value] == (tasks[..i] + tasks[i + 1..])[k]
    decreases |tasks|
  {
    var rest := tasks[..i] + tasks[i + 1..];
    if i == 0 {
      assert rest == tasks[1..];
      assert tasks[0].id != other;
      match FindIndex(tasks[1..], other)
      case None =>
      case Some(k) =>
    } else if tasks[0].id == other {
      assert rest[0] == tasks[0];
    } else {
      assert rest[1..] == tasks[1..][..i - 1] + tasks[1..][i..];
      FindAfterRemove(tasks[1..], i - 1, other);
    }
  }

  /** A delete of one id leaves the row every other id finds unchanged. */
  lemma GetOthersAfterDelete(s: Store, id: int, other: int)
    requires other != id
    ensures GetTaskById(DeleteTask(s, id).0, other) == GetTaskById(s, other)
  {
    match FindIndex(s.tasks, id)
    case None =>
    case Some(i) =>
      FindAfterRemove(s.tasks, i, other);
  }

  /**
   * A delete removes the row carrying its id and no other: every other row
   * stays, and nothing new appears.
   */
  lemma DeleteKeepsOtherRows(s: Store, id: int, row: Row)
    requires Valid(s)
    ensures row in DeleteTask(s, id).0.tasks <==> row in s.tasks && row.id != id
  {
  }

  /** A delete keeps ids unique and increasing. */
  lemma DeletePreservesValid(s: Store, id: int)
    requires Valid(s)
    ensures Valid(DeleteTask(s, id).0)
  {
  }

  /** After a delete in a valid store the id is no longer found. */
  lemma GetAfterDelete(s: Store, id: int)
    requires Valid(s)
    ensures GetTaskById(DeleteTask(s, id).0, id) == None
  {
  }

  /** After marking, the task reads back as completed with its other fields intact. */
  lemma GetAfterMark(s: Store, id: int)
    requires Valid(s)
    requires GetTaskById(s, id).Some? && GetTaskById(s, id).value.data.displayStatus == Pending
    ensures GetTaskById(MarkTaskCompletedById(s, id).0, id)
              == Some(Row(id, GetTaskById(s, id).value.data.(displayStatus := Completed)))
  {
  }

  /** Marking twice is the same as marking once. */
  lemma MarkIdempotent(s: Store, id: int)
    requires Valid(s)
    ensures MarkTaskCompletedById(MarkTaskCompletedById(s, id).0, id).0 == MarkTaskCompletedById(s, id).0
  {
  }
}
