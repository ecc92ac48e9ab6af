/**
 * `TaskService`: the layer that assigns ids and timestamps and forwards to the
 * repository. `Guid.NewGuid()` and each reading of `DateTime.Now` are
 * parameters of the operation that makes them; a new Guid is never
 * `Guid.Empty` (a version-4 Guid carries fixed version bits) and, being
 * random, is taken not to collide with a stored one.
 */
module Service {

  import opened Wrappers
  import opened Domain
  import opened Repository

  /**
   * Every stored task was created no later than it was last modified, and no
   * later than `clock`, the latest reading of `DateTime.Now` so far.
   */
  ghost predicate TimesOrdered(m: Table, clock: Timestamp)
  {
    forall id | id in m :: m[id].createdAt <= m[id].modified <= clock
  }

  /** The record `UpdateTaskAsync` stores: the incoming fields copied wholesale onto `existing`. */
  function Overwrite(existing: TaskItem, incoming: TaskItem, now: Timestamp): (r: TaskItem)
    ensures r.id == existing.id && r.createdAt == existing.createdAt
    ensures r.title == incoming.title && r.description == incoming.description
    ensures r.assignedTo == incoming.assignedTo && r.status == incoming.status
    ensures r.modified == now
  {
    existing.(title := incoming.title, description := incoming.description,
              assignedTo := incoming.assignedTo, status := incoming.status, modified := now)
  }

  class TaskService {
    const repo: TaskRepository

    ghost predicate Valid()
      reads repo
    {
      repo.Valid()
    }

    ghost function Table(): Table
      reads repo
    {
      repo.tasks
    }

    constructor (repo: TaskRepository)
      ensures this.repo == repo
    {
      this.repo := repo;
    }

    /** `GetAllTasksAsync` */
    method GetAllTasks() returns (all: seq<TaskItem>)
      requires Valid()
      ensures ListsRows(all, Table())
    {
      all := repo.GetAll();
    }

    /** `GetTaskByIdAsync`: null exactly when no task has that id. */
    method GetTaskById(id: Guid) returns (found: Option<TaskItem>)
      requires Valid()
      ensures found.None? <==> id !in Table()
      ensures found.Some? ==> found.value == Table()[id] && found.value.id == id
    {
      found := repo.GetById(id);
    }

    /**
     * `CreateTaskAsync`: give the task a new id and two readings of the clock,
     * store it and return it. Title, description, assignee and status are kept
     * as the caller sent them.
     */
    method CreateTask(task: TaskItem, newId: Guid, createdNow: Timestamp, modifiedNow: Timestamp)
      returns (created: TaskItem)
      requires Valid()
      requires newId != EmptyGuid && newId !in Table()
      modifies repo
      ensures Valid()
      ensures created.id != EmptyGuid && created.id !in old(Table())
      ensures created == task.(id := newId, createdAt := createdNow, modified := modifiedNow)
      ensures Table() == old(Table())[newId := created]
      ensures TimesOrdered(old(Table()), createdNow) && createdNow <= modifiedNow ==>
                TimesOrdered(Table(), modifiedNow)
    {
      var t := task.(id := newId);
      t := t.(createdAt := createdNow);
      t := t.(modified := modifiedNow);
      repo.Add(t);
      created := t;
    }

    /**
     * `UpdateTaskAsync`: null and no change when the id is absent; otherwise
     * copy title, description, assignee and status wholesale from `task`, set
     * `Modified` to the clock, store and return the result. Any id or
     * timestamps carried by `task` are ignored.
     */
    method UpdateTask(id: Guid, task: TaskItem, now: Timestamp) returns (updated: Option<TaskItem>)
      requires Valid()
      modifies repo
      ensures Valid()
      ensures updated.None? <==> id !in old(Table())
      ensures updated.None? ==> Table() == old(Table())
      ensures updated.Some? ==>
                && updated.value == Overwrite(old(Table())[id], task, now)
                && Table() == old(Table())[id := updated.value]
      ensures TimesOrdered(old(Table()), now) ==> TimesOrdered(Table(), now)
    {
      var existing := repo.GetById(id);
      if existing.None? {
        return None;
      }
      var e := existing.value;
      e := e.(title := task.title);
      e := e.(description := task.description);
      e := e.(assignedTo := task.assignedTo);
      e := e.(status := task.status);
      e := e.(modified := now);
      repo.Update(e);
      updated := Some(e);
    }

    /** `DeleteTaskAsync`: whether a task with that id existed; afterwards none does. */
    method DeleteTask(id: Guid) returns (deleted: bool)
      requires Valid()
      modifies repo
      ensures Valid()
      ensures deleted <==> id in old(Table())
      ensures Table() == old(Table()) - {id}
    {
      var existing := repo.GetById(id);
      if existing.None? {
        return false;
      }
      repo.Delete(id);
      deleted := true;
    }
  }

  /** Deleting the same id twice succeeds at most once and never fails. */
  method DeleteTwice(service: TaskService, id: Guid) returns (first: bool, second: bool)
    requires service.Valid()
    modifies service.repo
    ensures first <==> id in old(service.Table())
    ensures !second
    ensures service.Table() == old(service.Table()) - {id}
  {
    first := service.DeleteTask(id);
    second := service.DeleteTask(id);
  }
}
