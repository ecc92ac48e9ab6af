/**
 * The two halves joined: a request to the backend controller, followed by the
 * delivery of whatever it broadcast to a client whose list mirrors the table.
 * After each request the client's list mirrors the new table.
 */
module ClientSync {

  import opened Domain
  import opened Broadcast
  import opened ControllerRules
  import opened ApiController
  import opened TaskList

  /** What a client holds after receiving the events sent since `from`. */
  function Received(client: seq<TaskItem>, sent: seq<Event>, from: nat): seq<TaskItem>
    requires from <= |sent|
  {
    ApplyAll(client, sent[from..])
  }

  /** Receiving one event is applying its reducer. */
  lemma ReceivedOne(client: seq<TaskItem>, sent: seq<Event>, e: Event)
    ensures Received(client, sent + [e], |sent|) == Apply(client, e)
  {
    assert (sent + [e])[|sent|..] == [e];
    assert [e][1..] == [];
    assert ApplyAll(client, [e]) == ApplyAll(Apply(client, e), []);
  }

  /** Receiving nothing changes nothing. */
  lemma ReceivedNone(client: seq<TaskItem>, sent: seq<Event>)
    ensures Received(client, sent, |sent|) == client
  {
    assert sent[|sent|..] == [];
  }

  method PostSeen(api: TasksController, client: seq<TaskItem>, task: TaskItem,
                  istCreated: Timestamp, istModified: Timestamp,
                  newId: Guid, createdNow: Timestamp, modifiedNow: Timestamp)
    returns (res: ActionResult, client': seq<TaskItem>)
    requires api.Valid() && Mirrors(client, api.Table())
    requires newId != EmptyGuid && newId !in api.Table()
    modifies api.service.repo, api.hub
    ensures api.Valid()
    ensures |old(api.hub.sent)| <= |api.hub.sent|
    ensures client' == Received(client, api.hub.sent, |old(api.hub.sent)|)
    ensures Mirrors(client', api.Table())
  {
    ghost var m0 := api.Table();
    var sent0 := api.hub.sent;
    res := api.Post(task, istCreated, istModified, newId, createdNow, modifiedNow);
    client' := Received(client, api.hub.sent, |sent0|);
    ReceivedOne(client, sent0, TaskCreated(res.task));
    ApplyMirrors(client, m0, TaskCreated(res.task), api.Table());
  }

  method PutSeen(api: TasksController, client: seq<TaskItem>, id: Guid, req: PutRequest,
                 istNow: Timestamp, now: Timestamp)
    returns (res: ActionResult, client': seq<TaskItem>)
    requires api.Valid() && Mirrors(client, api.Table())
    modifies api.service.repo, api.hub
    ensures api.Valid()
    ensures |old(api.hub.sent)| <= |api.hub.sent|
    ensures client' == Received(client, api.hub.sent, |old(api.hub.sent)|)
    ensures Mirrors(client', api.Table())
  {
    ghost var m0 := api.Table();
    var sent0 := api.hub.sent;
    res := api.Put(id, req, istNow, now);
    client' := Received(client, api.hub.sent, |sent0|);
    if id in m0 {
      ReceivedOne(client, sent0, TaskUpdated(res.task));
      ApplyMirrors(client, m0, TaskUpdated(res.task), api.Table());
    } else {
      ReceivedNone(client, sent0);
    }
  }

  method UpdateStatusSeen(api: TasksController, client: seq<TaskItem>, id: Guid, status: Int32,
                          istNow: Timestamp, now: Timestamp)
    returns (res: ActionResult, client': seq<TaskItem>)
    requires api.Valid() && Mirrors(client, api.Table())
    modifies api.service.repo, api.hub
    ensures api.Valid()
    ensures |old(api.hub.sent)| <= |api.hub.sent|
    ensures client' == Received(client, api.hub.sent, |old(api.hub.sent)|)
    ensures Mirrors(client', api.Table())
  {
    ghost var m0 := api.Table();
    var sent0 := api.hub.sent;
    res := api.UpdateStatus(id, status, istNow, now);
    client' := Received(client, api.hub.sent, |sent0|);
    if id in m0 {
      ReceivedOne(client, sent0, TaskUpdated(res.task));
      ApplyMirrors(client, m0, TaskUpdated(res.task), api.Table());
    } else {
      ReceivedNone(client, sent0);
    }
  }

  method DeleteSeen(api: TasksController, client: seq<TaskItem>, id: Guid)
    returns (res: ActionResult, client': seq<TaskItem>)
    requires api.Valid() && Mirrors(client, api.Table())
    modifies api.service.repo, api.hub
    ensures api.Valid()
    ensures |old(api.hub.sent)| <= |api.hub.sent|
    ensures client' == Received(client, api.hub.sent, |old(api.hub.sent)|)
    ensures Mirrors(client', api.Table())
  {
    ghost var m0 := api.Table();
    var sent0 := api.hub.sent;
    res := api.DeleteTask(id);
    client' := Received(client, api.hub.sent, |sent0|);
    if id in m0 {
      ReceivedOne(client, sent0, TaskDeleted(id));
      ApplyMirrors(client, m0, TaskDeleted(id), api.Table());
    } else {
      ReceivedNone(client, sent0);
    }
  }
}
