/**
 * The older `TasksController` of the TaskTracker project. It stamps nothing on
 * POST and writes `DateTime.UtcNow` into `Modified` on PUT and PATCH; the
 * service overwrites that with its own reading of `DateTime.Now`.
 */
module LegacyController {

  import opened Domain
  import opened Repository
  import opened Service
  import opened Broadcast
  import opened ControllerRules

  class TasksController {
    const service: TaskService
    const hub: Hub

    ghost predicate Valid()
      reads service.repo
    {
      service.Valid()
    }

    ghost function Table(): Table
      reads service.repo
    {
      service.Table()
    }

    constructor (service: TaskService, hub: Hub)
      ensures this.service == service && this.hub == hub
    {
      this.service := service;
      this.hub := hub;
    }

    /** GET /api/tasks */
    method Get() returns (res: ActionResult)
      requires Valid()
      ensures res.OkList? && ListsRows(res.tasks, Table())
    {
      var tasks := service.GetAllTasks();
      res := OkList(tasks);
    }

    /** POST /api/tasks: create, broadcast once, return 201 with the created task. */
    method Post(task: TaskItem, newId: Guid, createdNow: Timestamp, modifiedNow: Timestamp)
      returns (res: ActionResult)
      requires Valid()
      requires newId != EmptyGuid && newId !in Table()
      modifies service.repo, hub
      ensures Valid()
      ensures res.CreatedAt? && res.id == res.task.id != EmptyGuid
      ensures res == CreatedAt(newId, task.(id := newId, createdAt := createdNow, modified := modifiedNow))
      ensures Table() == old(Table())[newId := res.task]
      ensures hub.sent == old(hub.sent) + [TaskCreated(res.task)]
      ensures ServerStep(old(Table()), TaskCreated(res.task), Table())
    {
      var created := service.CreateTask(task, newId, createdNow, modifiedNow);
      hub.SendAll(TaskCreated(created));
      res := CreatedAt(created.id, created);
    }

    /** GET /api/tasks/{id}: 404 exactly when no task has that id. */
    method GetById(id: Guid) returns (res: ActionResult)
      requires Valid()
      ensures res.NotFound? <==> id !in Table()
      ensures !res.NotFound? ==> res == Ok(Table()[id]) && res.task.id == id
    {
      var task := service.GetTaskById(id);
      if task.None? {
        return NotFound;
      }
      res := Ok(task.value);
    }

    /**
     * PUT /api/tasks/{id}: merge the request onto the stored task, let the
     * service store it, broadcast and return the result; 404 and no event when
     * the id is absent.
     */
    method Put(id: Guid, req: PutRequest, utcNow: Timestamp, now: Timestamp) returns (res: ActionResult)
      requires Valid()
      modifies service.repo, hub
      ensures Valid()
      ensures id !in old(Table()) ==>
                res == NotFound && Table() == old(Table()) && hub.sent == old(hub.sent)
      ensures id in old(Table()) ==>
                && res == Ok(Merge(old(Table())[id], req, now))
                && Table() == old(Table())[id := res.task]
                && hub.sent == old(hub.sent) + [TaskUpdated(res.task)]
                && ServerStep(old(Table()), TaskUpdated(res.task), Table())
    {
      var existing := service.GetTaskById(id);
      if existing.None? {
        return NotFound;
      }
      var edited := Merge(existing.value, req, utcNow);
      var updated := service.UpdateTask(id, edited, now);
      hub.SendAll(TaskUpdated(updated.value));
      res := Ok(updated.value);
    }

    /** PATCH /api/tasks/{id}/status: only the status and `Modified` change. */
    method UpdateStatus(id: Guid, status: Int32, utcNow: Timestamp, now: Timestamp)
      returns (res: ActionResult)
      requires Valid()
      modifies service.repo, hub
      ensures Valid()
      ensures id !in old(Table()) ==>
                res == NotFound && Table() == old(Table()) && hub.sent == old(hub.sent)
      ensures id in old(Table()) ==>
                && res == Ok(old(Table())[id].(status := status, modified := now))
                && Table() == old(Table())[id := res.task]
                && hub.sent == old(hub.sent) + [TaskUpdated(res.task)]
                && ServerStep(old(Table()), TaskUpdated(res.task), Table())
    {
      var existing := service.GetTaskById(id);
      if existing.None? {
        return NotFound;
      }
      var edited := existing.value.(status := status);
      edited := edited.(modified := utcNow);
      var updated := service.UpdateTask(id, edited, now);
      hub.SendAll(TaskUpdated(updated.value));
      res := Ok(updated.value);
    }

    /** DELETE /api/tasks/{id}: 204 and one `TaskDeleted`, or 404 and nothing. */
    method DeleteTask(id: Guid) returns (res: ActionResult)
      requires Valid()
      modifies service.repo, hub
      ensures Valid()
      ensures Table() == old(Table()) - {id}
      ensures id !in old(Table()) ==> res == NotFound && hub.sent == old(hub.sent)
      ensures id in old(Table()) ==>
                && res == NoContent
                && hub.sent == old(hub.sent) + [TaskDeleted(id)]
                && ServerStep(old(Table()), TaskDeleted(id), Table())
    {
      var deleted := service.DeleteTask(id);
      if !deleted {
        return NotFound;
      }
      hub.SendAll(TaskDeleted(id));
      res := NoContent;
    }
  }
}
