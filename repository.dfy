/**
 * The repository over the `Tasks` table of the database context. The table is
 * a map from primary key to row; EF Core keys each row by the entity's `Id`.
 */
module Repository {

  import opened Wrappers
  import opened Domain

  type Table = map<Guid, TaskItem>

  /** Every row is stored under its own id. */
  ghost predicate KeyedById(m: Table)
  {
    forall id | id in m :: m[id].id == id
  }

  /** `s` lists the rows of `m`, each exactly once, in some order. */
  ghost predicate ListsRows(s: seq<TaskItem>, m: Table)
  {
    && |s| == |m|
    && (forall i | 0 <= i < |s| :: s[i].id in m && m[s[i].id] == s[i])
    && (forall i, j | 0 <= i < j < |s| :: s[i].id != s[j].id)
    && (forall id | id in m :: m[id] in s)
  }

  class TaskRepository {
    /** The `Tasks` DbSet. */
    var tasks: Table

    ghost predicate Valid()
      reads this
    {
      KeyedById(tasks)
    }

    constructor (initial: Table)
      requires KeyedById(initial)
      ensures Valid() && tasks == initial
    {
      tasks := initial;
    }

    /** `GetAllAsync`: every stored row, in the store's order. */
    method GetAll() returns (all: seq<TaskItem>)
      requires Valid()
      ensures ListsRows(all, tasks)
    {
      all := [];
      var rest := tasks.Keys;
      while rest != {}
        invariant rest <= tasks.Keys
        invariant |all| + |rest| == |tasks|
        invariant forall i | 0 <= i < |all| :: all[i].id in tasks.Keys - rest && tasks[all[i].id] == all[i]
        invariant forall i, j | 0 <= i < j < |all| :: all[i].id != all[j].id
        invariant forall id | id in tasks.Keys - rest :: tasks[id] in all
        decreases rest
      {
        var id :| id in rest;
        all := all + [tasks[id]];
        rest := rest - {id};
      }
    }

    /** `GetByIdAsync`: the row with that key, or null. */
    method GetById(id: Guid) returns (found: Option<TaskItem>)
      ensures found.Some? <==> id in tasks
      ensures found.Some? ==> found.value == tasks[id]
    {
      found := if id in tasks then Some(tasks[id]) else None;
    }

    /**
     * `AddAsync`: insert a new row. Inserting a key that is already tracked
     * or stored makes EF Core throw, so callers supply a fresh id.
     */
    method Add(entity: TaskItem)
      requires Valid()
      requires entity.id !in tasks
      modifies this
      ensures Valid()
      ensures tasks == old(tasks)[entity.id := entity]
    {
      tasks := tasks[entity.id := entity];
    }

    /**
     * `UpdateAsync`: overwrite the row keyed by the entity's id. Updating a
     * row that does not exist makes `SaveChangesAsync` throw, so callers pass
     * a row they have just read.
     */
    method Update(entity: TaskItem)
      requires Valid()
      requires entity.id in tasks
      modifies this
      ensures Valid()
      ensures tasks == old(tasks)[entity.id := entity]
    {
      tasks := tasks[entity.id := entity];
    }

    /** `DeleteAsync`: remove the row if there is one; otherwise do nothing. */
    method Delete(id: Guid)
      requires Valid()
      modifies this
      ensures Valid()
      ensures tasks == old(tasks) - {id}
      ensures id !in old(tasks) ==> tasks == old(tasks)
    {
      var entity := GetById(id);
      if entity.Some? {
        tasks := tasks - {id};
      }
    }
  }
}
