/**
 * What the two `TasksController` variants share: the HTTP results they return,
 * the bound PUT body, and the PUT merge rule.
 */
module ControllerRules {

  import opened Wrappers
  import opened Domain

  /** The `IActionResult`s the controllers produce. */
  datatype ActionResult =
    | Ok(task: TaskItem)                 // 200 with one task
    | OkList(tasks: seq<TaskItem>)       // 200 with every task
    | CreatedAt(id: Guid, task: TaskItem) // 201, Location naming GetById(id)
    | NotFound                           // 404
    | NoContent                          // 204

  /**
   * A PUT body after model binding, as far as `Put` reads it: a string field
   * sent as null is `None`; a string field left out of the body binds to its
   * initialiser, the empty string, and is `Some("")`. `Status` is a
   * non-nullable enum value: it is always present, and `New` (0) when left
   * out. The body's id and timestamps are never read.
   */
  datatype PutRequest = PutRequest(
    title: Option<string>,
    description: Option<string>,
    assignedTo: Option<string>,
    status: Int32)

  /**
   * The controller's edit of the stored task before it is handed to the
   * service: `??` on the three strings, `Status` overwritten unconditionally,
   * `Modified` set to the controller's own clock reading.
   */
  function Merge(existing: TaskItem, req: PutRequest, now: Timestamp): (r: TaskItem)
    ensures r.id == existing.id && r.createdAt == existing.createdAt
    ensures req.title.None? ==> r.title == existing.title
    ensures req.title.Some? ==> r.title == req.title.value
    ensures req.description.None? ==> r.description == existing.description
    ensures req.description.Some? ==> r.description == req.description.value
    ensures req.assignedTo.None? ==> r.assignedTo == existing.assignedTo
    ensures req.assignedTo.Some? ==> r.assignedTo == req.assignedTo.value
    ensures r.status == req.status
    ensures r.modified == now
  {
    existing.(
      title := req.title.GetOr(existing.title),
      description := req.description.GetOr(existing.description),
      assignedTo := req.assignedTo.GetOr(existing.assignedTo),
      status := req.status,
      modified := now)
  }

  /** A PUT whose title and description are null keeps the stored ones. */
  lemma MergeNullStringsKept(existing: TaskItem, who: string, s: Int32, now: Timestamp)
    ensures var r := Merge(existing, PutRequest(None, None, Some(who), s), now);
            r.title == existing.title && r.description == existing.description && r.assignedTo == who
  {
  }

  /**
   * An empty string is not null: a PUT whose title and description are empty,
   * as when they are left out of the body, blanks the stored ones, and a
   * status left out resets the stored one to `New`.
   */
  lemma MergeEmptyStringsOverwrite(existing: TaskItem, who: string, now: Timestamp)
    ensures var r := Merge(existing, PutRequest(Some(""), Some(""), Some(who), Code(New)), now);
            r.title == "" && r.description == "" && r.status == Code(New)
  {
  }

  /**
   * Re-sending a PUT changes nothing but `Modified`, which takes the later
   * clock reading: the merge is idempotent up to the timestamp.
   */
  lemma MergeIdempotent(existing: TaskItem, req: PutRequest, first: Timestamp, second: Timestamp)
    ensures Merge(Merge(existing, req, first), req, second) == Merge(existing, req, second)
  {
  }
}
