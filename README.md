# TaskTracker task lifecycle, broadcast and client reconciliation in Dafny

This project models the core of a small real-time task tracker. The pieces are:

- the `TaskItem` record and its `TaskStatus` enum;
- the EF Core repository over the `Tasks` table;
- `TaskService`, which assigns ids and timestamps;
- both variants of `TasksController`: the one in the TaskTracker-Backend solution and the older one in the TaskTracker project. Each adds the PUT merge rule, the status-only PATCH, the 404 branches and the SignalR broadcast of `TaskCreated`, `TaskUpdated` and `TaskDeleted`;
- the browser's three list reducers in `TaskList.tsx`;
- `mapStatus` in `status.ts`.

Layout, one module per file:

- `wrappers.dfy` (`Wrappers`): `Option`, which stands for a C# nullable, with `GetOr` as `??`.
- `domain.dfy` (`Domain`): `Guid` (128 bits), `Timestamp` (ticks), `TaskStatus`, `TaskItem`. A C# enum variable holds any `int`, so a task's status is stored as an `Int32`. The declared members `New`, `InProgress` and `Completed` are the values 0, 1 and 2.
- `repository.dfy` (`Repository`): class `TaskRepository` whose `tasks: map<Guid, TaskItem>` is the DbSet.
- `service.dfy` (`Service`): class `TaskService` over a repository.
- `broadcast.dfy` (`Broadcast`): the `Event` messages, and class `Hub` whose `sent` log records every `Clients.All.SendAsync`. `ServerStep(m, e, m')` says that event `e` accounts exactly for the change of the table from `m` to `m'`.
- `controller_rules.dfy` (`ControllerRules`): the `ActionResult`s, the bound PUT body and the `??` merge, all shared by the two controllers.
- `api_controller.dfy` (`ApiController`) and `legacy_controller.dfy` (`LegacyController`): the two `TasksController` classes.
- `task_list.dfy` (`TaskList`): the reducers as pure functions of the previous list.
- `status.ts` is modelled in `status.dfy` (`Status`), together with the two ways a status reaches the browser. HTTP responses use a string enum converter; hub messages use the default JSON options, which write numbers.
- `client_sync.dfy` (`ClientSync`): each backend mutation composed with delivering its broadcast to a client.

Each controller method states, for both outcomes, the whole new table, the result, and the exact suffix appended to the hub's log. Every success appends exactly one event. That event is a `ServerStep` from the old table to the new one, and its payload is the task returned to the caller. A client list mirrors the table when its ids are distinct, every entry equals the stored task, and every stored task is present. `ApplyAllMirrors` proves that such a list keeps mirroring the table after the events of any run of successful requests are applied in order. The `ClientSync` methods join this to the controller. Each one calls a backend mutation, delivers what that call broadcast (one event or none) to a mirroring client, and proves that the client then mirrors the new table.

Behaviour the model follows from the code:

- `CreateTaskAsync` does not reset `Status` to `New` and validates nothing. The caller's title, description, assignee and status are stored as sent.
- `CreateTaskAsync` reads `DateTime.Now` twice, so `CreatedAt` and `Modified` can differ. `CreatedAt <= Modified` holds only if the clock does not go backwards (`Service.TimesOrdered`).
- PUT always overwrites `Status` with the body's value. Only the three strings are merged.
- The timestamps that the controllers write (IST in one variant, UTC in the other) are always overwritten by the service's reading. The controller `ensures` show that callers see only the service's values.
- Nothing makes `Modified` strictly increase. The code only reads a clock.

## Model

| member | source | states |
|---|---|---|
| Domain.Code | TaskTracker-Backend/TaskTracker.Domain/Models/TaskItem.cs:5-10 | The enum has exactly three members, with codes 0, 1 and 2: `New` is 0 and `Completed` is 2. |
| Domain.FromCode | TaskTracker-Backend/TaskTracker.Domain/Models/TaskItem.cs:5-10 | An integer names a member exactly when it is in 0..2, and the member found has that code. |
| Domain.CodeAndNameInjective | TaskTracker-Backend/TaskTracker.Domain/Models/TaskItem.cs:5-10 | Distinct members have distinct codes and distinct names. |
| Domain.CodeRoundTrip | TaskTracker-Backend/TaskTracker.Domain/Models/TaskItem.cs:5-10 | Going from member to code and back gives the member. |
| Domain.Name | TaskTracker-Backend/TaskTracker.Domain/Models/TaskItem.cs:5-10 | Each declared member is written as one of the three names "New", "InProgress" and "Completed"; `CodeAndNameInjective` shows the names are distinct. |
| Domain.NewTaskItem | TaskTracker-Backend/TaskTracker.Domain/Models/TaskItem.cs:12-21 | A fresh `TaskItem` has status `New` (value 0), empty title, description and assignee, the empty Guid and `DateTime.MinValue` timestamps. |
| Repository.TaskRepository.GetAll | TaskTracker.DAL/Respositories/TaskRespository.cs:20-23 | The returned list holds every stored row exactly once, with no duplicate ids and nothing else. |
| Repository.TaskRepository.GetById | TaskTracker.DAL/Respositories/TaskRespository.cs:25-28 | The result is null exactly when the key is absent; otherwise it is the stored row. |
| Repository.TaskRepository.Add | TaskTracker.DAL/Respositories/TaskRespository.cs:30-34 | Given a fresh id, the entity becomes retrievable under its id and every other row is unchanged. |
| Repository.TaskRepository.Update | TaskTracker.DAL/Respositories/TaskRespository.cs:36-40 | The row keyed by the entity's id is replaced and every other row is unchanged. |
| Repository.TaskRepository.Delete | TaskTracker.DAL/Respositories/TaskRespository.cs:42-50 | Exactly that key is removed; an absent key leaves the table unchanged. |
| Service.Overwrite | TaskTracker-Backend/TaskTracker.Services/Implementations/TaskService.cs:44-48 | The update copies title, description, assignee and status from the incoming task and sets `Modified` to the clock. It keeps the stored `Id` and `CreatedAt`. |
| Service.TaskService.GetAllTasks | TaskTracker-Backend/TaskTracker.Services/Implementations/TaskService.cs:20-23 | Lists every stored task exactly once. |
| Service.TaskService.GetTaskById | TaskTracker-Backend/TaskTracker.Services/Implementations/TaskService.cs:25-28 | Null iff the id is not stored; otherwise the stored task, whose id is the one asked for. |
| Service.TaskService.CreateTask | TaskTracker-Backend/TaskTracker.Services/Implementations/TaskService.cs:30-37 | Only `Id`, `CreatedAt` and `Modified` change (a fresh, non-empty id and two clock readings); status is not reset. The returned id is never `Guid.Empty`. The task is stored under a new key and other rows are untouched. With a non-decreasing clock, `CreatedAt <= Modified` is preserved. |
| Service.TaskService.UpdateTask | TaskTracker-Backend/TaskTracker.Services/Implementations/TaskService.cs:39-52 | Null with no change iff the id is absent. Otherwise it stores and returns the wholesale overwrite (no merge here), leaves other rows untouched and preserves timestamp order. |
| Service.TaskService.DeleteTask | TaskTracker-Backend/TaskTracker.Services/Implementations/TaskService.cs:54-61 | True iff the id was stored; afterwards it is absent and every other row is unchanged. |
| Service.DeleteTwice | TaskTracker-Backend/TaskTracker.Services/Implementations/TaskService.cs:54-61 | Deleting the same id twice returns (was present, false) and never fails. |
| Broadcast.Hub.SendAll | TaskTracker-Backend/TaskTracker/Controllers/TaskController.cs:50 | Sending appends exactly that one event to the log of messages sent to all clients. |
| ControllerRules.Merge | TaskTracker-Backend/TaskTracker/Controllers/TaskController.cs:71-77 | A null title, description or assignee keeps the stored value and a non-null one replaces it. Status is always the request's. `Id` and `CreatedAt` are kept. |
| ControllerRules.MergeNullStringsKept | TaskTracker-Backend/TaskTracker/Controllers/TaskController.cs:71-73 | A PUT whose title and description are null keeps the stored title and description and sets the assignee it carries. |
| ControllerRules.MergeEmptyStringsOverwrite | TaskTracker-Backend/TaskTracker/Controllers/TaskController.cs:71-74 | An empty string is not null. A body whose title and description bind to "" blanks the stored ones, and a status that binds to `New` resets the stored status. |
| ControllerRules.MergeIdempotent | TaskTracker/Controllers/TaskController.cs:58-62 | A second identical PUT changes nothing but `Modified`, which takes the later clock reading. |
| ApiController.TasksController.Get | TaskTracker-Backend/TaskTracker/Controllers/TaskController.cs:32-38 | 200 with every stored task exactly once. |
| ApiController.TasksController.Post | TaskTracker-Backend/TaskTracker/Controllers/TaskController.cs:40-53 | 201 with the created task, whose id is non-empty and names its `Location`; the service's timestamps replace the controller's IST ones. Exactly one `TaskCreated` carries the returned task. |
| ApiController.TasksController.GetById | TaskTracker-Backend/TaskTracker/Controllers/TaskController.cs:55-62 | 404 iff the id is not stored; otherwise 200 with the stored task. |
| ApiController.TasksController.Put | TaskTracker-Backend/TaskTracker/Controllers/TaskController.cs:64-84 | Absent id: 404, no change, no event. Present id: the merged task with the service's `Modified` is stored, returned and broadcast once as `TaskUpdated`. |
| ApiController.TasksController.UpdateStatus | TaskTracker-Backend/TaskTracker/Controllers/TaskController.cs:86-101 | Absent id: 404, no change, no event. Present id: only `Status` and `Modified` change, and one `TaskUpdated` carries the returned task. |
| ApiController.TasksController.DeleteTask | TaskTracker-Backend/TaskTracker/Controllers/TaskController.cs:103-113 | Absent id: 404 and no event. Present id: the row is removed, 204 is returned and exactly one `TaskDeleted(id)` is sent. |
| LegacyController.TasksController.Get | TaskTracker/Controllers/TaskController.cs:25-30 | 200 with every stored task exactly once. |
| LegacyController.TasksController.Post | TaskTracker/Controllers/TaskController.cs:32-41 | 201 with the created task, whose id is non-empty and names its `Location`, and exactly one `TaskCreated` carrying it. |
| LegacyController.TasksController.GetById | TaskTracker/Controllers/TaskController.cs:43-49 | 404 iff the id is not stored; otherwise 200 with the stored task. |
| LegacyController.TasksController.Put | TaskTracker/Controllers/TaskController.cs:51-70 | Absent id: 404, no change, no event. Present id: the `??` merge with the status overwritten; the UTC stamp is replaced by the service's. One `TaskUpdated` carries the returned task. |
| LegacyController.TasksController.UpdateStatus | TaskTracker/Controllers/TaskController.cs:72-88 | Only `Status` and `Modified` change, and one `TaskUpdated` carries the returned task; an absent id gives 404 with no event. |
| LegacyController.TasksController.DeleteTask | TaskTracker/Controllers/TaskController.cs:107-118 | Absent id: 404 and no event. Present id: the row is removed, 204 is returned and exactly one `TaskDeleted(id)` is sent. |
| TaskList.OnCreated | tasktracker-frontend/src/components/TaskList.tsx:26-29 | Afterwards the id is in the list. The old list is a prefix of the result, which has at most one more entry. A known id changes nothing (see `OnCreatedShape`). |
| TaskList.OnCreatedShape | tasktracker-frontend/src/components/TaskList.tsx:25-30 | A known id leaves the list unchanged. A new id is appended at the end, with the earlier entries unchanged and in order. |
| TaskList.OnCreatedIdempotent | tasktracker-frontend/src/components/TaskList.tsx:27-28 | Applying the same `TaskCreated` twice gives the same list as applying it once. |
| TaskList.OnCreatedDistinct | tasktracker-frontend/src/components/TaskList.tsx:27-28 | Insert-if-absent keeps ids pairwise distinct. |
| TaskList.OnUpdated | tasktracker-frontend/src/components/TaskList.tsx:33-35 | Length and order are preserved. Each entry with the incoming id becomes the incoming task and every other entry is untouched. |
| TaskList.OnUpdatedAbsent | tasktracker-frontend/src/components/TaskList.tsx:34 | An update for an id not in the list is a no-op; it never inserts. |
| TaskList.OnUpdatedIdempotent | tasktracker-frontend/src/components/TaskList.tsx:34 | Applying the same `TaskUpdated` twice gives the same list as applying it once. |
| TaskList.OnUpdatedDistinct | tasktracker-frontend/src/components/TaskList.tsx:34 | Replace-by-id keeps ids pairwise distinct. |
| TaskList.OnDeleted | tasktracker-frontend/src/components/TaskList.tsx:38-40 | No survivor has the deleted id, every survivor was in the list, and every entry with another id survives. |
| TaskList.OnDeletedAppend | tasktracker-frontend/src/components/TaskList.tsx:39 | Removal distributes over concatenation, so survivors keep their relative order. |
| TaskList.OnDeletedSingle | tasktracker-frontend/src/components/TaskList.tsx:39 | A single entry survives exactly when its id differs. |
| TaskList.OnDeletedAbsent | tasktracker-frontend/src/components/TaskList.tsx:39 | Deleting an id not in the list leaves the list unchanged. |
| TaskList.OnDeletedIdempotent | tasktracker-frontend/src/components/TaskList.tsx:39 | Applying the same `TaskDeleted` twice gives the same list as applying it once. |
| TaskList.OnDeletedDistinct | tasktracker-frontend/src/components/TaskList.tsx:39 | Filter-out-by-id keeps ids pairwise distinct. |
| TaskList.Apply | tasktracker-frontend/src/components/TaskList.tsx:25-40 | After `TaskCreated` the id is present and after `TaskDeleted` it is absent. `TaskUpdated` keeps the length and the presence of its id. |
| TaskList.ApplyAll | tasktracker-frontend/src/components/TaskList.tsx:25-40 | Applying messages in arrival order, the last message decides: a final `TaskCreated` leaves its id present and a final `TaskDeleted` leaves its id absent. |
| TaskList.ApplyAllDistinct | tasktracker-frontend/src/components/TaskList.tsx:24-40 | No sequence of hub messages produces two entries with the same id. |
| TaskList.FetchedMirrors | tasktracker-frontend/src/components/TaskList.tsx:17-18 | The list loaded by the initial GET mirrors the server's table. |
| TaskList.CreatedMirrors | tasktracker-frontend/src/components/TaskList.tsx:25-30 | After the server inserts a new task, `TaskCreated` turns a mirror of the old table into a mirror of the new one. |
| TaskList.UpdatedMirrors | tasktracker-frontend/src/components/TaskList.tsx:33-35 | After the server replaces a stored task, `TaskUpdated` turns a mirror of the old table into a mirror of the new one. |
| TaskList.DeletedMirrors | tasktracker-frontend/src/components/TaskList.tsx:38-40 | After the server removes an id, `TaskDeleted` turns a mirror of the old table into a mirror of the new one. |
| TaskList.ApplyMirrors | tasktracker-frontend/src/components/TaskList.tsx:24-40 | Any broadcast that accounts for a server change keeps the client's list a mirror of the table. |
| TaskList.ApplyAllMirrors | tasktracker-frontend/src/components/TaskList.tsx:16-41 | A client that fetched the table and then received the events of successful requests, in order, shows the final table. |
| Status.MapStatus | tasktracker-frontend/src/utils/status.ts:2-14 | A string is returned unchanged. A number always maps to one of "New", "InProgress", "Completed" or "Unknown". |
| Status.MapStatusUnknown | tasktracker-frontend/src/utils/status.ts:11-12 | A number maps to "Unknown" exactly when it is not 0, 1 or 2. |
| Status.MapStatusAgrees | tasktracker-frontend/src/utils/status.ts:5-10 | For every backend status, both its numeric code and its wire name map to its name. |
| Status.MapStatusInjectiveOnCodes | tasktracker-frontend/src/utils/status.ts:5-10 | A number maps to a status name exactly when it is that status's code. |
| Status.FromHttp | TaskTracker/Program.cs:24-28 | The string enum converter writes a declared member as its name and any other value as its number. |
| Status.FromHub | TaskTracker/Program.cs:33 | The hub keeps the default JSON options and writes every status as its number. |
| Status.SameStatusEitherWay | tasktracker-frontend/src/utils/status.ts:2-14 | For every int status, `mapStatus` shows the same string whether the task came from a GET or from a hub message: the member's name for 0, 1 and 2, and "Unknown" exactly for any other value. |
| Status.ClientCode | tasktracker-frontend/src/types.ts:2-6 | The client enum's members have the numbers 0, 1 and 2, with `New` as 0 and `Completed` as 2. |
| Status.ToClient | tasktracker-frontend/src/types.ts:2-6 | The client member with a backend member's name has the same number. |
| Status.EnumsAgree | tasktracker-frontend/src/types.ts:2-6 | Pairing backend and client members by name is the same as pairing them by number, and the pairing is one-to-one. |
| ClientSync.PostSeen | TaskTracker-Backend/TaskTracker/Controllers/TaskController.cs:40-53 | A POST followed by delivering its broadcast leaves a mirroring client mirroring the new table. |
| ClientSync.PutSeen | TaskTracker-Backend/TaskTracker/Controllers/TaskController.cs:64-84 | A PUT, found or not, followed by delivering what it broadcast leaves a mirroring client mirroring the new table. |
| ClientSync.UpdateStatusSeen | TaskTracker-Backend/TaskTracker/Controllers/TaskController.cs:86-101 | The same for the status PATCH. |
| ClientSync.DeleteSeen | TaskTracker-Backend/TaskTracker/Controllers/TaskController.cs:103-113 | The same for DELETE, whether or not the id was stored. |

## Left out

- Async/await, EF Core change tracking and `SaveChangesAsync` are not modelled. Calls are sequential and records are values. The C# controllers edit the very entity the service then reloads; here they edit a copy, with the same result.
- The repository's failures are not modelled: inserting a duplicate key, or updating a row that no longer exists, makes EF Core throw. `Add` and `Update` require what their callers in the service guarantee instead.
- `Guid.NewGuid()` is a parameter of `CreateTask` and `Post`. It is required to be non-empty, as a version-4 Guid always is, and not to be stored already, which a random Guid is taken to satisfy.
- `DateTime.Now`, `DateTime.UtcNow` and `GetIndianTime` (which needs the OS time-zone database) are integer parameters. Which zone a value is in is not modelled.
- `Service.TaskService.CreateTask`: `CreatedAt <= Modified` is stated only for a clock that does not go backwards, because the two readings come from the system clock.
- Concurrent requests and their last-write-wins races are not modelled.
- JSON model binding is not modelled. `Put` receives an already-bound body in which a null string is `None`. An omitted field binds to its initializer (`Some("")`, status `New`), not to null, so omitted fields are not kept (`MergeEmptyStringsOverwrite`). ASP.NET validation of bodies is not modelled.
- The database stores a status as a string (`HasConversion<string>()`), and reading back a value that is no declared member is not modelled. The model keeps the `Int32` as it is.
- The SignalR connection, its reconnection, delivery to individual clients and the axios client are outside the model. A broadcast is an entry appended to `Hub.sent`, and `ApplyAllMirrors` assumes every event arrives in order.
- `TaskList.ApplyAllMirrors` assumes the initial GET completed before the first hub message was applied. `TaskList.tsx` does not ensure this: it registers the handlers and then replaces the whole list with the fetched one whenever the fetch returns. Events applied before that moment are overwritten, and events the server sent before taking the snapshot are lost. This race between the initial fetch and the hub subscription is outside the theorem.
- `ClientSync` composes only the backend controller's mutations with client delivery. The older controller's mutations have the same `ServerStep` contracts, but no composition is written for them.
- The React state, effects and rendering around the reducers are not modelled. Neither are the task form's empty-title check, the other UI components or the video player page.
- `Program.cs` (dependency injection, CORS, Swagger, routing) and `AppDbContext` (keys, column rules) are framework wiring and not part of this model. The only parts modelled are the two JSON encodings of a status (`Status.FromHttp`, `Status.FromHub`).
- The commented-out delete handler of the older controller is not modelled.
- `Status.MapStatus`: JavaScript numbers are modelled as reals, so NaN and the infinities are not covered. The code would map them to "Unknown".
