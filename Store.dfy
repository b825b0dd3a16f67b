/**
 * The task collection and the five operations on it: list, create, update,
 * toggle and delete. The document store is a map from identifiers to tasks;
 * a logical clock stands in for the timestamps the store assigns, and a new
 * task's identifier carries the clock value it was created at.
 */
module Store {
  import opened Common
  import opened Errors
  import opened Validation

  datatype Id = Id(stamp: nat)

  datatype Task = Task(
    id: Id,
    title: string,
    description: string,
    completed: bool,
    createdAt: nat,
    updatedAt: nat)

  /** The body of an update: only the fields present are changed. */
  datatype Patch = Patch(title: Option<string>, description: Option<string>, completed: Option<bool>)

  /** What an operation ends in: its value, or a typed failure for the error handler. */
  datatype Outcome<T> = Done(value: T) | Failed(error: AppError)

  /** The confirmation a delete answers with. */
  datatype Deletion = Deletion(message: string, id: Id)

  const DeletedMessage: string := "Task deleted successfully"

  /** The task after an update: present fields replaced, absent ones kept. */
  function ApplyPatch(t: Task, p: Patch, stamp: nat): (r: Task)
    ensures r.id == t.id && r.createdAt == t.createdAt && r.updatedAt == stamp
    ensures p.title.None? ==> r.title == t.title
    ensures p.title.Some? ==> r.title == p.title.value
    ensures p.description.None? ==> r.description == t.description
    ensures p.description.Some? ==> r.description == p.description.value
    ensures p.completed.None? ==> r.completed == t.completed
    ensures p.completed.Some? ==> r.completed == p.completed.value
  {
    Task(t.id,
         if p.title.Some? then p.title.value else t.title,
         if p.description.Some? then p.description.value else t.description,
         if p.completed.Some? then p.completed.value else t.completed,
         t.createdAt,
         stamp)
  }

  /** An update that mentions no field changes nothing but the update time. */
  lemma EmptyPatchKeepsTask(t: Task, stamp: nat)
    ensures ApplyPatch(t, Patch(None, None, None), stamp) == t.(updatedAt := stamp)
  {
  }

  /** The task after a toggle: `completed` negated, all else kept but the update time. */
  function Toggled(t: Task, stamp: nat): (r: Task)
    ensures r.completed == !t.completed
    ensures r.id == t.id && r.title == t.title && r.description == t.description
    ensures r.createdAt == t.createdAt && r.updatedAt == stamp
  {
    t.(completed := !t.completed, updatedAt := stamp)
  }

  /** Toggling twice restores the task, up to the update time. */
  lemma ToggleTwiceRestores(t: Task, s1: nat, s2: nat)
    ensures Toggled(Toggled(t, s1), s2) == t.(updatedAt := s2)
  {
  }

  /** Strictly decreasing creation time. */
  predicate NewestFirst(ts: seq<Task>)
  {
    forall i, j :: 0 <= i < j < |ts| ==> ts[i].createdAt > ts[j].createdAt
  }

  /** Each task is stored under its own identifier, which carries its creation time. */
  ghost predicate WellStamped(m: map<Id, Task>)
  {
    forall id :: id in m ==> m[id].id == id && m[id].createdAt == id.stamp
  }

  /** `r` holds, newest first, exactly the tasks of `m` created at `k` or later. */
  ghost predicate ListedFrom(m: map<Id, Task>, r: seq<Task>, k: nat)
  {
    && NewestFirst(r)
    && (forall i :: 0 <= i < |r| ==> r[i].id in m && m[r[i].id] == r[i] && r[i].createdAt >= k)
    && (forall id :: id in m && id.stamp >= k ==> m[id] in r)
  }

  /** One step of the newest-first listing: the task created at `k`, if any, goes last. */
  lemma ListedStep(m: map<Id, Task>, r: seq<Task>, k: nat)
    requires WellStamped(m) && ListedFrom(m, r, k + 1)
    ensures ListedFrom(m, if Id(k) in m then r + [m[Id(k)]] else r, k)
  {
    if Id(k) in m {
      var r' := r + [m[Id(k)]];
      forall i, j | 0 <= i < j < |r'| ensures r'[i].createdAt > r'[j].createdAt {
        if j == |r| {
          assert r'[i] == r[i];
        }
      }
      forall id | id in m && id.stamp >= k ensures m[id] in r' {
        if id.stamp == k {
          assert id == Id(k);
          assert r'[|r|] == m[id];
        } else {
          assert m[id] in r;
        }
      }
    } else {
      forall id | id in m && id.stamp >= k ensures m[id] in r {
        assert id.stamp != k;
      }
    }
  }

  /** `seen` is the set of identifiers of the tasks of `m` created at `k` or later. */
  ghost predicate SeenFrom(m: map<Id, Task>, seen: set<Id>, k: nat)
  {
    forall id :: id in seen <==> id in m && id.stamp >= k
  }

  lemma SeenStep(m: map<Id, Task>, seen: set<Id>, k: nat)
    requires SeenFrom(m, seen, k + 1)
    ensures Id(k) !in seen
    ensures SeenFrom(m, if Id(k) in m then seen + {Id(k)} else seen, k)
  {
  }

  class TaskStore {
    var tasks: map<Id, Task>
    var clock: nat

    /** Every task is stored under its own identifier, which carries its
        creation time, and was created and last updated before the clock. */
    ghost predicate Valid()
      reads this
    {
      && WellStamped(tasks)
      && forall id :: id in tasks ==> tasks[id].createdAt <= tasks[id].updatedAt < clock
    }

    constructor ()
      ensures Valid() && tasks == map[] && clock == 0
    {
      tasks := map[];
      clock := 0;
    }

    /** `Task.create`: stores a new task under a fresh identifier. */
    method Insert(title: string, description: string, completed: bool) returns (t: Task)
      requires Valid()
      modifies this
      ensures Valid()
      ensures t == Task(Id(old(clock)), title, description, completed, old(clock), old(clock))
      ensures t.id !in old(tasks)
      ensures tasks == old(tasks)[t.id := t] && clock == old(clock) + 1
    {
      t := Task(Id(clock), title, description, completed, clock, clock);
      tasks := tasks[t.id := t];
      clock := clock + 1;
    }

    /** `Task.findById`. */
    method FindById(id: Id) returns (r: Option<Task>)
      ensures r.Some? <==> id in tasks
      ensures r.Some? ==> r.value == tasks[id]
    {
      r := if id in tasks then Some(tasks[id]) else None;
    }

    /** List: every stored task once, newest first. */
    method List() returns (r: seq<Task>)
      requires Valid()
      ensures NewestFirst(r)
      ensures forall i :: 0 <= i < |r| ==> r[i].id in tasks && tasks[r[i].id] == r[i]
      ensures forall id :: id in tasks ==> tasks[id] in r
      ensures |r| == |tasks|
    {
      r := [];
      var k: nat := clock;
      ghost var seen: set<Id> := {};
      while k > 0
        invariant k <= clock
        invariant ListedFrom(tasks, r, k)
        invariant SeenFrom(tasks, seen, k)
        invariant |r| == |seen|
      {
        k := k - 1;
        ListedStep(tasks, r, k);
        SeenStep(tasks, seen, k);
        if Id(k) in tasks {
          r := r + [tasks[Id(k)]];
          seen := seen + {Id(k)};
        }
      }
      assert seen == tasks.Keys by {
        assert SeenFrom(tasks, seen, 0);
      }
    }

    /** Create: validate the body, then store a new, not yet completed task
        with the trimmed title and description (empty when absent). */
    method Create(p: Payload) returns (o: Outcome<Task>)
      requires Valid()
      modifies this
      ensures Valid()
      ensures o.Failed? <==> ValidateCreate(p) != []
      ensures o.Failed? ==> o.error == ValidationError(ValidateCreate(p))
      ensures o.Failed? ==> tasks == old(tasks) && clock == old(clock)
      ensures o.Done? ==> p.title.Some? && o.value.title == Trim(p.title.value)
      ensures o.Done? ==> o.value.description == (if p.description.Some? then Trim(p.description.value) else "")
      ensures o.Done? ==> !o.value.completed && o.value.id !in old(tasks)
      ensures o.Done? ==> Trim(o.value.title) == o.value.title && Trim(o.value.description) == o.value.description
      ensures o.Done? ==> o.value.createdAt == old(clock) && tasks == old(tasks)[o.value.id := o.value]
      ensures o.Done? ==> clock == old(clock) + 1
    {
      var errors := RunValidations(CreateRules, p);
      CreateChainIsValidateCreate(p);
      ValidateCreateEmptyIff(p);
      var decision := HandleValidationErrors(errors);
      match decision
      case Throw(e) =>
        o := Failed(e);
      case Next =>
        var description := if p.description.Some? then Trim(p.description.value) else "";
        TrimIdempotent(p.title.value);
        if p.description.Some? {
          TrimIdempotent(p.description.value);
        }
        var t := Insert(Trim(p.title.value), description, false);
        o := Done(t);
    }

    /** Update: the present fields of the patch replace the stored ones; an
        absent identifier is not found and nothing changes. */
    method Update(id: Id, patch: Patch) returns (o: Outcome<Task>)
      requires Valid()
      modifies this
      ensures Valid()
      ensures o.Failed? <==> id !in old(tasks)
      ensures o.Failed? ==> o.error == NotFoundError && tasks == old(tasks) && clock == old(clock)
      ensures o.Done? ==> o.value == ApplyPatch(old(tasks)[id], patch, old(clock))
      ensures o.Done? ==> tasks == old(tasks)[id := o.value] && clock == old(clock) + 1
    {
      if id !in tasks {
        return Failed(NotFoundError);
      }
      var t := ApplyPatch(tasks[id], patch, clock);
      tasks := tasks[id := t];
      clock := clock + 1;
      o := Done(t);
    }

    /** Toggle: negates `completed`; an absent identifier is not found. */
    method Toggle(id: Id) returns (o: Outcome<Task>)
      requires Valid()
      modifies this
      ensures Valid()
      ensures o.Failed? <==> id !in old(tasks)
      ensures o.Failed? ==> o.error == NotFoundError && tasks == old(tasks) && clock == old(clock)
      ensures o.Done? ==> o.value == Toggled(old(tasks)[id], old(clock))
      ensures o.Done? ==> tasks == old(tasks)[id := o.value] && clock == old(clock) + 1
    {
      if id !in tasks {
        return Failed(NotFoundError);
      }
      var t := Toggled(tasks[id], clock);
      tasks := tasks[id := t];
      clock := clock + 1;
      o := Done(t);
    }

    /** Delete: removes the task for good; an absent identifier is not found. */
    method Delete(id: Id) returns (o: Outcome<Deletion>)
      requires Valid()
      modifies this
      ensures Valid() && clock == old(clock)
      ensures o.Failed? <==> id !in old(tasks)
      ensures o.Failed? ==> o.error == NotFoundError && tasks == old(tasks)
      ensures o.Done? ==> o.value == Deletion(DeletedMessage, id)
      ensures o.Done? ==> tasks == old(tasks) - {id} && id !in tasks
    {
      if id !in tasks {
        return Failed(NotFoundError);
      }
      tasks := tasks - {id};
      o := Done(Deletion(DeletedMessage, id));
    }
  }

}
