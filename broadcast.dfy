/**
 * The real-time fan-out: `_hubContext.Clients.All.SendAsync(name, payload)`.
 * What reaches the clients is modelled as the log of events sent, in order.
 */
module Broadcast {

  import opened Domain
  import opened Repository

  /** The three messages of the hub, named as on the wire. */
  datatype Event = TaskCreated(task: TaskItem) | TaskUpdated(task: TaskItem) | TaskDeleted(id: Guid)

  /**
   * Event `e` accounts exactly for the change from table `m` to table `m'`:
   * a task with a new id was added, a stored task was replaced under its own
   * id, or a stored id was removed.
   */
  ghost predicate ServerStep(m: Table, e: Event, m': Table)
  {
    match e
    case TaskCreated(t) => t.id !in m && m' == m[t.id := t]
    case TaskUpdated(t) => t.id in m && m' == m[t.id := t]
    case TaskDeleted(id) => id in m && m' == m - {id}
  }

  /** `Clients.All`: everything sent so far. */
  class Hub {
    var sent: seq<Event>

    constructor ()
      ensures sent == []
    {
      sent := [];
    }

    /** `SendAsync` to all connected clients. */
    method SendAll(e: Event)
      modifies this
      ensures sent == old(sent) + [e]
    {
      sent := sent + [e];
    }
  }
}
