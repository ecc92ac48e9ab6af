/**
 * The client's copy of the task list and the three reducers it applies to it
 * when the hub reports a change: insert-if-absent, replace-by-id and
 * remove-by-id. The React state and the hub subscriptions around them are
 * not modelled; the reducers are pure functions of the previous list.
 */
module TaskList {

  import opened Domain
  import opened Repository
  import opened Broadcast

  /** `prev.some(task => task.id === id)` */
  predicate HasId(prev: seq<TaskItem>, id: Guid)
  {
    exists i | 0 <= i < |prev| :: prev[i].id == id
  }

  /** No two entries of the list share an id. */
  ghost predicate DistinctIds(s: seq<TaskItem>)
  {
    forall i, j | 0 <= i < j < |s| :: s[i].id != s[j].id
  }

  /** TaskCreated: leave the list alone if the id is there, else append. */
  function OnCreated(prev: seq<TaskItem>, t: TaskItem): (r: seq<TaskItem>)
    ensures HasId(r, t.id)
    ensures |prev| <= |r| <= |prev| + 1 && r[..|prev|] == prev
    ensures HasId(prev, t.id) ==> r == prev
  {
    if HasId(prev, t.id) then prev
    else
      var r := prev + [t];
      assert r[|prev|] == t;
      r
  }

  /** TaskUpdated: `prev.map(t => t.id === u.id ? u : t)` */
  function OnUpdated(prev: seq<TaskItem>, u: TaskItem): (r: seq<TaskItem>)
    ensures |r| == |prev|
    ensures forall i | 0 <= i < |prev| :: r[i] == (if prev[i].id == u.id then u else prev[i])
  {
    if prev == [] then []
    else [if prev[0].id == u.id then u else prev[0]] + OnUpdated(prev[1..], u)
  }

  /** TaskDeleted: `prev.filter(t => t.id !== id)` */
  function OnDeleted(prev: seq<TaskItem>, id: Guid): (r: seq<TaskItem>)
    ensures |r| <= |prev|
    ensures forall i | 0 <= i < |r| :: r[i].id != id && r[i] in prev
    ensures forall i | 0 <= i < |prev| && prev[i].id != id :: prev[i] in r
  {
    if prev == [] then []
    else if prev[0].id == id then OnDeleted(prev[1..], id)
    else [prev[0]] + OnDeleted(prev[1..], id)
  }

  /** The reducer the hub message selects. */
  function Apply(prev: seq<TaskItem>, e: Event): (r: seq<TaskItem>)
    ensures e.TaskCreated? ==> HasId(r, e.task.id)
    ensures e.TaskUpdated? ==> |r| == |prev| && (HasId(r, e.task.id) <==> HasId(prev, e.task.id))
    ensures e.TaskDeleted? ==> !HasId(r, e.id)
  {
    match e
    case TaskCreated(t) => OnCreated(prev, t)
    case TaskUpdated(u) => OnUpdated(prev, u)
    case TaskDeleted(id) => OnDeleted(prev, id)
  }

  /** Messages applied in the order they arrive. */
  function ApplyAll(prev: seq<TaskItem>, events: seq<Event>): (r: seq<TaskItem>)
    ensures events != [] && events[|events| - 1].TaskCreated? ==> HasId(r, events[|events| - 1].task.id)
    ensures events != [] && events[|events| - 1].TaskDeleted? ==> !HasId(r, events[|events| - 1].id)
    decreases |events|
  {
    if events == [] then prev else ApplyAll(Apply(prev, events[0]), events[1..])
  }

  // ---------------------------------------------------------------- TaskCreated

  /** A known id leaves the list unchanged; a new one goes at the end, the rest in place. */
  lemma OnCreatedShape(prev: seq<TaskItem>, t: TaskItem)
    ensures HasId(prev, t.id) ==> OnCreated(prev, t) == prev
    ensures !HasId(prev, t.id) ==>
              |OnCreated(prev, t)| == |prev| + 1 && OnCreated(prev, t)[..|prev|] == prev
              && OnCreated(prev, t)[|prev|] == t
  {
  }

  /** Receiving the same TaskCreated twice is the same as receiving it once. */
  lemma OnCreatedIdempotent(prev: seq<TaskItem>, t: TaskItem)
    ensures OnCreated(OnCreated(prev, t), t) == OnCreated(prev, t)
  {
    if !HasId(prev, t.id) {
      var r := prev + [t];
      assert r[|prev|].id == t.id;
    }
  }

  lemma OnCreatedDistinct(prev: seq<TaskItem>, t: TaskItem)
    requires DistinctIds(prev)
    ensures DistinctIds(OnCreated(prev, t))
  {
  }

  // ---------------------------------------------------------------- TaskUpdated

  /** An update for an id the list does not hold changes nothing; in particular it never inserts. */
  lemma OnUpdatedAbsent(prev: seq<TaskItem>, u: TaskItem)
    requires !HasId(prev, u.id)
    ensures OnUpdated(prev, u) == prev
  {
  }

  /** Receiving the same TaskUpdated twice is the same as receiving it once. */
  lemma OnUpdatedIdempotent(prev: seq<TaskItem>, u: TaskItem)
    ensures OnUpdated(OnUpdated(prev, u), u) == OnUpdated(prev, u)
  {
  }

  /** The ids, position by position, are those of the old list. */
  lemma OnUpdatedDistinct(prev: seq<TaskItem>, u: TaskItem)
    requires DistinctIds(prev)
    ensures DistinctIds(OnUpdated(prev, u))
  {
    var r := OnUpdated(prev, u);
    assert forall i | 0 <= i < |r| :: r[i].id == prev[i].id;
  }

  // ---------------------------------------------------------------- TaskDeleted

  /** Deleting commutes with concatenation: the survivors keep their relative order. */
  lemma {:induction false} OnDeletedAppend(a: seq<TaskItem>, b: seq<TaskItem>, id: Guid)
    ensures OnDeleted(a + b, id) == OnDeleted(a, id) + OnDeleted(b, id)
  {
    if a == [] {
      assert a + b == b;
    } else {
      assert (a + b)[1..] == a[1..] + b;
      OnDeletedAppend(a[1..], b, id);
    }
  }

  /** A single entry survives exactly when its id differs. */
  lemma OnDeletedSingle(x: TaskItem, id: Guid)
    ensures OnDeleted([x], id) == if x.id == id then [] else [x]
  {
    assert [x][1..] == [];
  }

  /** Deleting an id the list does not hold changes nothing. */
  lemma {:induction false} OnDeletedAbsent(prev: seq<TaskItem>, id: Guid)
    requires !HasId(prev, id)
    ensures OnDeleted(prev, id) == prev
  {
    if prev != [] {
      assert prev[0].id != id;
      assert !HasId(prev[1..], id) by {
        forall i | 0 <= i < |prev[1..]| ensures prev[1..][i].id != id {
          assert prev[1..][i] == prev[i + 1];
        }
      }
      OnDeletedAbsent(prev[1..], id);
      assert prev == [prev[0]] + prev[1..];
    }
  }

  /** Receiving the same TaskDeleted twice is the same as receiving it once. */
  lemma OnDeletedIdempotent(prev: seq<TaskItem>, id: Guid)
    ensures OnDeleted(OnDeleted(prev, id), id) == OnDeleted(prev, id)
  {
    OnDeletedAbsent(OnDeleted(prev, id), id);
  }

  /** What survives a deletion is a sub-list, so its ids stay distinct. */
  lemma {:induction false} OnDeletedDistinct(prev: seq<TaskItem>, id: Guid)
    requires DistinctIds(prev)
    ensures DistinctIds(OnDeleted(prev, id))
  {
    if prev != [] {
      var tail := prev[1..];
      assert DistinctIds(tail) by {
        forall i, j | 0 <= i < j < |tail| ensures tail[i].id != tail[j].id {
          assert tail[i] == prev[i + 1] && tail[j] == prev[j + 1];
        }
      }
      OnDeletedDistinct(tail, id);
      if prev[0].id != id {
        var rest := OnDeleted(tail, id);
        assert !HasId(tail, prev[0].id) by {
          forall i | 0 <= i < |tail| ensures tail[i].id != prev[0].id {
            assert tail[i] == prev[i + 1];
          }
        }
        forall k | 0 <= k < |rest| ensures rest[k].id != prev[0].id {
          var j :| 0 <= j < |tail| && tail[j] == rest[k];
        }
        var r := [prev[0]] + rest;
        forall i, j | 0 <= i < j < |r| ensures r[i].id != r[j].id {
          if i > 0 {
            assert r[i] == rest[i - 1] && r[j] == rest[j - 1];
          } else {
            assert r[j] == rest[j - 1];
          }
        }
      }
    }
  }

  // ---------------------------------------------------------------- all three

  /** However messages arrive, the list never holds two tasks with one id. */
  lemma {:induction false} ApplyAllDistinct(prev: seq<TaskItem>, events: seq<Event>)
    requires DistinctIds(prev)
    ensures DistinctIds(ApplyAll(prev, events))
    decreases |events|
  {
    if events != [] {
      match events[0] {
        case TaskCreated(t) => OnCreatedDistinct(prev, t);
        case TaskUpdated(u) => OnUpdatedDistinct(prev, u);
        case TaskDeleted(id) => OnDeletedDistinct(prev, id);
      }
      ApplyAllDistinct(Apply(prev, events[0]), events[1..]);
    }
  }

  /**
   * The list shows exactly the server's table: distinct ids, every entry
   * equal to the stored task with its id, every stored task present.
   */
  ghost predicate Mirrors(s: seq<TaskItem>, m: Table)
  {
    DistinctIds(s) && AllStored(s, m) && AllShown(s, m)
  }

  /** Every entry is the stored task with its id. */
  ghost predicate AllStored(s: seq<TaskItem>, m: Table)
  {
    forall i | 0 <= i < |s| :: s[i].id in m && m[s[i].id] == s[i]
  }

  /** Every stored task has an entry. */
  ghost predicate AllShown(s: seq<TaskItem>, m: Table)
  {
    forall id | id in m :: HasId(s, id)
  }

  /** The list fetched by GET /api/tasks mirrors the table. */
  lemma FetchedMirrors(s: seq<TaskItem>, m: Table)
    requires KeyedById(m) && ListsRows(s, m)
    ensures Mirrors(s, m)
  {
    forall id | id in m ensures HasId(s, id) {
      var i :| 0 <= i < |s| && s[i] == m[id];
    }
  }

  lemma CreatedMirrors(s: seq<TaskItem>, m: Table, t: TaskItem)
    requires Mirrors(s, m) && t.id !in m
    ensures Mirrors(OnCreated(s, t), m[t.id := t])
  {
    assert !HasId(s, t.id);
    OnCreatedDistinct(s, t);
    var r := s + [t];
    forall id | id in m[t.id := t] ensures HasId(r, id) {
      if id != t.id {
        var i :| 0 <= i < |s| && s[i].id == id;
        assert r[i] == s[i];
      } else {
        assert r[|s|] == t;
      }
    }
  }

  lemma UpdatedMirrors(s: seq<TaskItem>, m: Table, u: TaskItem)
    requires Mirrors(s, m) && u.id in m
    ensures Mirrors(OnUpdated(s, u), m[u.id := u])
  {
    OnUpdatedDistinct(s, u);
    var r, m' := OnUpdated(s, u), m[u.id := u];
    assert AllStored(r, m') by {
      forall i | 0 <= i < |r| ensures r[i].id in m' && m'[r[i].id] == r[i] {
        if s[i].id != u.id {
          assert r[i] == s[i];
        }
      }
    }
    assert AllShown(r, m') by {
      forall id | id in m' ensures HasId(r, id) {
        assert HasId(s, id);
        var i :| 0 <= i < |s| && s[i].id == id;
        assert r[i].id == id;
      }
    }
  }

  lemma DeletedMirrors(s: seq<TaskItem>, m: Table, id: Guid)
    requires Mirrors(s, m)
    ensures Mirrors(OnDeleted(s, id), m - {id})
  {
    OnDeletedDistinct(s, id);
    var r := OnDeleted(s, id);
    forall k | k in m - {id} ensures HasId(r, k) {
      var i :| 0 <= i < |s| && s[i].id == k;
      var j :| 0 <= j < |r| && r[j] == s[i];
    }
  }

  /** One broadcast, applied to a list that mirrors the table before the change, mirrors it after. */
  lemma ApplyMirrors(s: seq<TaskItem>, m: Table, e: Event, m': Table)
    requires Mirrors(s, m) && ServerStep(m, e, m')
    ensures Mirrors(Apply(s, e), m')
  {
    match e
    case TaskCreated(t) => CreatedMirrors(s, m, t);
    case TaskUpdated(u) => UpdatedMirrors(s, m, u);
    case TaskDeleted(id) => DeletedMirrors(s, m, id);
  }

  /**
   * A client that fetched the table and then receives, in order, the events
   * of a run of successful requests ends up showing the final table.
   */
  lemma {:induction false} ApplyAllMirrors(s: seq<TaskItem>, tables: seq<Table>, events: seq<Event>)
    requires |tables| == |events| + 1
    requires Mirrors(s, tables[0])
    requires forall k | 0 <= k < |events| :: ServerStep(tables[k], events[k], tables[k + 1])
    ensures Mirrors(ApplyAll(s, events), tables[|events|])
    decreases |events|
  {
    if events != [] {
      var s', ts, es := Apply(s, events[0]), tables[1..], events[1..];
      ApplyMirrors(s, tables[0], events[0], tables[1]);
      forall k | 0 <= k < |es| ensures ServerStep(ts[k], es[k], ts[k + 1]) {
        assert ts[k] == tables[k + 1] && es[k] == events[k + 1] && ts[k + 1] == tables[k + 2];
      }
      ApplyAllMirrors(s', ts, es);
      assert ApplyAll(s, events) == ApplyAll(s', es);
      assert ts[|es|] == tables[|events|];
    }
  }
}
