/**
 * The domain record of the task tracker: the `TaskStatus` enum and the
 * `TaskItem` entity with the default values its properties are initialised to.
 */
module Domain {

  import Wrappers

  /** A `System.Guid`: 128 bits, the all-zero value being `Guid.Empty`. */
  newtype Guid = x: int | 0 <= x < 0x1_0000_0000_0000_0000_0000_0000_0000_0000

  const EmptyGuid: Guid := 0

  /**
   * A `System.DateTime`, as its tick count. `default(DateTime)` is
   * `DateTime.MinValue`, tick 0. Which clock a value came from (local time,
   * UTC, India Standard Time) is not distinguished.
   */
  type Timestamp = int

  const MinTime: Timestamp := 0

  /** A C# `int`. */
  newtype Int32 = x: int | -0x8000_0000 <= x < 0x8000_0000

  /**
   * The three declared members of the `TaskStatus` enum. A variable of the
   * enum type holds any `int` (a body may bind `(TaskStatus)5`), so a task's
   * status is stored as its underlying `Int32`; the members are the values
   * 0, 1 and 2.
   */
  datatype TaskStatus = New | InProgress | Completed

  /** The member's underlying value. */
  function Code(s: TaskStatus): (c: Int32)
    ensures 0 <= c < 3
    ensures c == 0 <==> s == New
    ensures c == 2 <==> s == Completed
  {
    match s
    case New => 0
    case InProgress => 1
    case Completed => 2
  }

  /** The member's name, which is how the status is written as a string. */
  function Name(s: TaskStatus): (r: string)
    ensures r in {"New", "InProgress", "Completed"}
  {
    match s
    case New => "New"
    case InProgress => "InProgress"
    case Completed => "Completed"
  }

  /** The declared member with a given value, if there is one (`Enum.IsDefined` and a cast). */
  function FromCode(c: Int32): (r: Wrappers.Option<TaskStatus>)
    ensures r.Some? <==> 0 <= c < 3
    ensures r.Some? ==> Code(r.value) == c
  {
    if c == 0 then Wrappers.Some(New)
    else if c == 1 then Wrappers.Some(InProgress)
    else if c == 2 then Wrappers.Some(Completed)
    else Wrappers.None
  }

  /** Distinct members have distinct codes and distinct names. */
  lemma CodeAndNameInjective(s: TaskStatus, t: TaskStatus)
    ensures Code(s) == Code(t) ==> s == t
    ensures Name(s) == Name(t) ==> s == t
  {
  }

  /** Converting a member to its code and back gives the member. */
  lemma CodeRoundTrip(s: TaskStatus)
    ensures FromCode(Code(s)) == Wrappers.Some(s)
  {
  }

  datatype TaskItem = TaskItem(
    id: Guid,
    title: string,
    description: string,
    assignedTo: string,
    status: Int32,
    createdAt: Timestamp,
    modified: Timestamp)

  /** `new TaskItem()`: every property at its initialiser or its type's default. */
  function NewTaskItem(): (t: TaskItem)
    ensures t.status == Code(New) && t.status == 0
    ensures t.title == [] && t.description == [] && t.assignedTo == []
    ensures t.id == EmptyGuid && t.createdAt == MinTime && t.modified == MinTime
  {
    TaskItem(EmptyGuid, "", "", "", Code(New), MinTime, MinTime)
  }
}
