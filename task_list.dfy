/** The values behind the maintenance planner: a task record, the four-field
    form it is built from, and the list operations its handlers use (append a
    new task, drop every task with a given id). */
module TaskList {

  /** The numeric hours of a task, `Number(text)` of the raw text typed into
      the hours field. JavaScript's string-to-number coercion is not modelled:
      an `Hours` value is identified by the text it was converted from. */
  datatype Hours = Number(text: string)

  /** One maintenance record. `id` is the opaque token generated when the
      task is created; `date` is the ISO text of the date input. */
  datatype Task = Task(id: string, equipment: string, hours: Hours, description: string, date: string)

  /** The in-progress form: four text fields, as typed. */
  datatype Form = Form(equipment: string, hours: string, description: string, date: string)

  /** The form as it starts out and as it is reset after a submission. */
  const EmptyForm := Form("", "", "", "")

  /** The set of ids carried by the tasks of a list. */
  function Ids(tasks: seq<Task>): set<string>
  {
    set t | t in tasks :: t.id
  }

  /** No two positions of the list carry the same id. */
  predicate UniqueIds(tasks: seq<Task>)
  {
    forall i, j :: 0 <= i < j < |tasks| ==> tasks[i].id != tasks[j].id
  }

  /** The tasks whose id differs from `id`, in their original order, as the
      delete handler's filter keeps them. */
  function RemoveId(tasks: seq<Task>, id: string): (kept: seq<Task>)
    ensures |kept| <= |tasks|
    ensures forall t :: t in kept <==> t in tasks && t.id != id
  {
    if tasks == [] then []
    else if tasks[0].id != id then [tasks[0]] + RemoveId(tasks[1..], id)
    else RemoveId(tasks[1..], id)
  }

  /** The positions `i..` of `tasks` whose task has an id other than `id`,
      in increasing order: the positions a filter on that id keeps. */
  function KeptFrom(tasks: seq<Task>, id: string, i: nat): seq<nat>
    requires i <= |tasks|
    decreases |tasks| - i
  {
    if i == |tasks| then []
    else if tasks[i].id != id then [i] + KeptFrom(tasks, id, i + 1)
    else KeptFrom(tasks, id, i + 1)
  }

  /** `sub` is the subsequence of `tasks` found at the strictly increasing
      positions `ps`. */
  predicate SelectsAt(sub: seq<Task>, tasks: seq<Task>, ps: seq<nat>)
  {
    && |ps| == |sub|
    && (forall k :: 0 <= k < |ps| ==> ps[k] < |tasks| && sub[k] == tasks[ps[k]])
    && (forall k, l :: 0 <= k < l < |ps| ==> ps[k] < ps[l])
  }

  /** Deleting keeps the tasks with a different id, and only those, in their
      original relative order: the result is the subsequence of the list at
      exactly the positions whose id differs from the deleted one. */
  lemma {:induction false} RemoveIdKeepsOrder(tasks: seq<Task>, id: string)
    ensures SelectsAt(RemoveId(tasks, id), tasks, KeptFrom(tasks, id, 0))
    ensures forall p :: 0 <= p < |tasks| ==> (tasks[p].id != id <==> p in KeptFrom(tasks, id, 0))
  {
    KeptFromSelects(tasks, id, 0);
    KeptFromPositions(tasks, id, 0);
    assert tasks[0..] == tasks;
  }

  /** The kept positions lie in `i..|tasks|`, increase strictly, and are
      exactly the positions from `i` on whose id differs from `id`. */
  lemma {:induction false} KeptFromPositions(tasks: seq<Task>, id: string, i: nat)
    requires i <= |tasks|
    ensures forall k :: 0 <= k < |KeptFrom(tasks, id, i)| ==> i <= KeptFrom(tasks, id, i)[k] < |tasks|
    ensures forall k, l :: 0 <= k < l < |KeptFrom(tasks, id, i)| ==> KeptFrom(tasks, id, i)[k] < KeptFrom(tasks, id, i)[l]
    ensures forall p :: i <= p < |tasks| ==> (tasks[p].id != id <==> p in KeptFrom(tasks, id, i))
    decreases |tasks| - i
  {
    if i < |tasks| {
      KeptFromPositions(tasks, id, i + 1);
    }
  }

  lemma {:induction false} KeptFromSelects(tasks: seq<Task>, id: string, i: nat)
    requires i <= |tasks|
    ensures SelectsAt(RemoveId(tasks[i..], id), tasks, KeptFrom(tasks, id, i))
    decreases |tasks| - i
  {
    if i < |tasks| {
      var rest, ps := RemoveId(tasks[i + 1..], id), KeptFrom(tasks, id, i + 1);
      KeptFromSelects(tasks, id, i + 1);
      assert tasks[i..][0] == tasks[i] && tasks[i..][1..] == tasks[i + 1..];
      if tasks[i].id != id {
        var sub, ps' := [tasks[i]] + rest, [i] + ps;
        assert RemoveId(tasks[i..], id) == sub && KeptFrom(tasks, id, i) == ps';
        KeptFromPositions(tasks, id, i);
        forall k | 0 < k < |ps'| ensures sub[k] == tasks[ps'[k]] {
          assert ps'[k] == ps[k - 1] && sub[k] == rest[k - 1];
        }
      } else {
        assert RemoveId(tasks[i..], id) == rest && KeptFrom(tasks, id, i) == ps;
      }
    }
  }

  /** Deleting an id that no task carries leaves the list as it was. */
  lemma {:induction false} RemoveIdAbsent(tasks: seq<Task>, id: string)
    requires id !in Ids(tasks)
    ensures RemoveId(tasks, id) == tasks
  {
    if tasks != [] {
      assert tasks[0] in tasks;
      assert Ids(tasks[1..]) <= Ids(tasks) by {
        forall x | x in Ids(tasks[1..]) ensures x in Ids(tasks) {
          var t :| t in tasks[1..] && t.id == x;
          assert t in tasks;
        }
      }
      RemoveIdAbsent(tasks[1..], id);
    }
  }

  /** Deleting leaves the list unchanged exactly when no task carries the id. */
  lemma {:induction false} RemoveIdUnchangedIff(tasks: seq<Task>, id: string)
    ensures RemoveId(tasks, id) == tasks <==> id !in Ids(tasks)
  {
    if id !in Ids(tasks) {
      RemoveIdAbsent(tasks, id);
    } else {
      var t :| t in tasks && t.id == id;
      assert t !in RemoveId(tasks, id);
    }
  }

  /** Deleting the same id a second time changes nothing. */
  lemma {:induction false} RemoveIdIdempotent(tasks: seq<Task>, id: string)
    ensures RemoveId(RemoveId(tasks, id), id) == RemoveId(tasks, id)
  {
    RemoveIdAbsent(RemoveId(tasks, id), id);
  }

  /** The tail of a list with distinct ids has distinct ids, none of them
      the head's. */
  lemma UniqueIdsTail(tasks: seq<Task>)
    requires UniqueIds(tasks) && tasks != []
    ensures UniqueIds(tasks[1..])
    ensures tasks[0].id !in Ids(tasks[1..])
  {
  }

  /** With pairwise distinct ids, deleting the id found at position `i`
      removes exactly that task and keeps every other one, in order; the list
      becomes one shorter. */
  lemma {:induction false} RemoveIdUnique(tasks: seq<Task>, id: string, i: nat)
    requires UniqueIds(tasks)
    requires i < |tasks| && tasks[i].id == id
    ensures RemoveId(tasks, id) == tasks[..i] + tasks[i + 1..]
    ensures |RemoveId(tasks, id)| == |tasks| - 1
  {
    UniqueIdsTail(tasks);
    if i == 0 {
      RemoveIdAbsent(tasks[1..], id);
    } else {
      var tail := tasks[1..];
      RemoveIdUnique(tail, id, i - 1);
      calc {
        RemoveId(tasks, id);
        [tasks[0]] + RemoveId(tail, id);
        [tasks[0]] + (tail[..i - 1] + tail[i..]);
        { assert [tasks[0]] + tail[..i - 1] == tasks[..i] && tail[i..] == tasks[i + 1..]; }
        tasks[..i] + tasks[i + 1..];
      }
    }
  }

  /** Deleting keeps ids pairwise distinct, and the ids left are the old ones
      minus the deleted one. */
  lemma {:induction false} RemoveIdPreservesUniqueIds(tasks: seq<Task>, id: string)
    requires UniqueIds(tasks)
    ensures UniqueIds(RemoveId(tasks, id))
    ensures Ids(RemoveId(tasks, id)) == Ids(tasks) - {id}
  {
    var kept := RemoveId(tasks, id);
    var ps := KeptFrom(tasks, id, 0);
    RemoveIdKeepsOrder(tasks, id);
    forall k, l | 0 <= k < l < |kept| ensures kept[k].id != kept[l].id {
      assert kept[k] == tasks[ps[k]] && kept[l] == tasks[ps[l]] && ps[k] < ps[l];
    }
  }

  /** Appending a task keeps ids pairwise distinct exactly when its id is
      fresh; the ids afterwards are the old ones plus the new one. */
  lemma AppendUniqueIds(tasks: seq<Task>, t: Task)
    requires UniqueIds(tasks)
    ensures UniqueIds(tasks + [t]) <==> t.id !in Ids(tasks)
    ensures Ids(tasks + [t]) == Ids(tasks) + {t.id}
  {
    var s := tasks + [t];
    if t.id in Ids(tasks) {
      var u :| u in tasks && u.id == t.id;
      var j :| 0 <= j < |tasks| && tasks[j] == u;
      assert s[j].id == s[|tasks|].id;
    } else {
      forall i, j | 0 <= i < j < |s| ensures s[i].id != s[j].id {
        if j == |tasks| {
          assert s[i] in tasks;
        }
      }
    }
    assert forall u :: u in s <==> u in tasks || u == t;
  }
}
