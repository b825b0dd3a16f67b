/**
 * The browser client's task-list state: the list of tasks shown, the loading
 * flag and the error message, and the handlers that fetch, add, update and
 * delete tasks. Each handler is one transition; the outcome of its request
 * is a parameter.
 */
module Client {
  import opened Common

  /** A task as the client receives it; `id` is the server's `_id`. */
  datatype TaskItem = TaskItem(id: string, title: string, description: string, completed: bool)

  /** What the add form submits. */
  datatype NewTask = NewTask(title: string, description: string)

  /** The outcome of a request: the response data, or a failure. */
  datatype Net<T> = Success(data: T) | Failure

  /** The request a handler sends. */
  datatype Request =
    | GetAll
    | Post(newTask: NewTask)
    | Put(id: string, task: TaskItem)
    | Remove(id: string)

  const FetchFailed: string := "Failed to fetch tasks. Make sure the backend server is running."
  const AddFailed: string := "Failed to add task"
  const UpdateFailed: string := "Failed to update task"
  const DeleteFailed: string := "Failed to delete task"

  /** `tasks.map(task => task._id === updated._id ? updated : task)`. */
  function ReplaceById(ts: seq<TaskItem>, updated: TaskItem): (r: seq<TaskItem>)
    ensures |r| == |ts|
    ensures forall i :: 0 <= i < |ts| ==> r[i] == (if ts[i].id == updated.id then updated else ts[i])
  {
    if ts == [] then []
    else [if ts[0].id == updated.id then updated else ts[0]] + ReplaceById(ts[1..], updated)
  }

  /** Replacing with the same task again changes nothing more. */
  lemma ReplaceByIdIdempotent(ts: seq<TaskItem>, updated: TaskItem)
    ensures ReplaceById(ReplaceById(ts, updated), updated) == ReplaceById(ts, updated)
  {
  }

  /** `tasks.filter(task => task._id !== id)`. */
  function RemoveById(ts: seq<TaskItem>, id: string): (r: seq<TaskItem>)
    ensures |r| <= |ts|
  {
    if ts == [] then []
    else (if ts[0].id == id then [] else [ts[0]]) + RemoveById(ts[1..], id)
  }

  /** Filtering keeps exactly the entries with another identifier. */
  lemma {:induction false} RemoveByIdMembers(ts: seq<TaskItem>, id: string, t: TaskItem)
    ensures t in RemoveById(ts, id) <==> t in ts && t.id != id
  {
    if ts != [] {
      RemoveByIdMembers(ts[1..], id, t);
      assert ts == [ts[0]] + ts[1..];
    }
  }

  /** Filtering by an identifier no entry has changes nothing. */
  lemma {:induction false} RemoveByIdAbsent(ts: seq<TaskItem>, id: string)
    requires forall i :: 0 <= i < |ts| ==> ts[i].id != id
    ensures RemoveById(ts, id) == ts
  {
    if ts != [] {
      RemoveByIdAbsent(ts[1..], id);
      assert ts == [ts[0]] + ts[1..];
    }
  }

  /** Filtering keeps the order of what it keeps: it works piecewise. */
  lemma {:induction false} RemoveByIdConcat(a: seq<TaskItem>, b: seq<TaskItem>, id: string)
    ensures RemoveById(a + b, id) == RemoveById(a, id) + RemoveById(b, id)
  {
    if a == [] {
      assert a + b == b;
    } else {
      assert (a + b)[0] == a[0];
      assert (a + b)[1..] == a[1..] + b;
      RemoveByIdConcat(a[1..], b, id);
    }
  }

  /** The task the toggle callback sends: `{...task, completed: !task.completed}`. */
  function WithCompletedFlipped(t: TaskItem): (r: TaskItem)
    ensures r.completed == !t.completed
    ensures r.id == t.id && r.title == t.title && r.description == t.description
  {
    t.(completed := !t.completed)
  }

  lemma FlipTwiceRestores(t: TaskItem)
    ensures WithCompletedFlipped(WithCompletedFlipped(t)) == t
  {
  }

  /** What the page renders. */
  datatype View = View(tasks: seq<TaskItem>, loading: bool, error: Option<string>)

  class App {
    var tasks: seq<TaskItem>
    var loading: bool
    var error: Option<string>
    /** The state rendered while the handler's request is in flight. */
    ghost var pending: View

    /** The initial state: no tasks, loading, no error. */
    constructor ()
      ensures tasks == [] && loading && error == None
    {
      tasks := [];
      loading := true;
      error := None;
      pending := View([], true, None);
    }

    /** `fetchTasks`. */
    method FetchTasks(response: Net<seq<TaskItem>>) returns (sent: Request)
      modifies this
      ensures sent == GetAll
      ensures pending == View(old(tasks), old(loading), None)
      ensures response.Success? ==> tasks == response.data && error == None
      ensures response.Failure? ==> tasks == old(tasks) && error == Some(FetchFailed)
      ensures !loading
    {
      error := None;
      sent := GetAll;
      pending := View(tasks, loading, error);
      match response {
        case Success(data) =>
          tasks := data;
        case Failure =>
          error := Some(FetchFailed);
      }
      loading := false;
    }

    /** `addTask`: the created task is appended after the ones shown. */
    method AddTask(task: NewTask, response: Net<TaskItem>) returns (sent: Request)
      modifies this
      ensures sent == Post(task)
      ensures pending == View(old(tasks), true, None)
      ensures response.Success? ==> tasks == old(tasks) + [response.data] && error == None
      ensures response.Failure? ==> tasks == old(tasks) && error == Some(AddFailed)
      ensures !loading
    {
      loading := true;
      error := None;
      sent := Post(task);
      pending := View(tasks, loading, error);
      match response {
        case Success(data) =>
          tasks := tasks + [data];
        case Failure =>
          error := Some(AddFailed);
      }
      loading := false;
    }

    /** `updateTask`: the task returned by the server replaces every shown
        task with its identifier; `loading` is not touched. */
    method UpdateTask(taskToUpdate: TaskItem, response: Net<TaskItem>) returns (sent: Request)
      modifies this
      ensures sent == Put(taskToUpdate.id, taskToUpdate)
      ensures pending == View(old(tasks), old(loading), None)
      ensures response.Success? ==> tasks == ReplaceById(old(tasks), response.data) && error == None
      ensures response.Failure? ==> tasks == old(tasks) && error == Some(UpdateFailed)
      ensures loading == old(loading)
    {
      error := None;
      sent := Put(taskToUpdate.id, taskToUpdate);
      pending := View(tasks, loading, error);
      match response {
        case Success(updated) =>
          tasks := ReplaceById(tasks, updated);
        case Failure =>
          error := Some(UpdateFailed);
      }
    }

    /** `deleteTask`: the task disappears at once; if the request fails the
        list shown before is put back. */
    method DeleteTask(id: string, response: Net<()>) returns (sent: Request)
      modifies this
      ensures sent == Remove(id)
      ensures pending == View(RemoveById(old(tasks), id), old(loading), None)
      ensures response.Success? ==> tasks == RemoveById(old(tasks), id) && error == None
      ensures response.Failure? ==> tasks == old(tasks) && error == Some(DeleteFailed)
      ensures loading == old(loading)
    {
      error := None;
      var originalTasks := tasks;
      tasks := RemoveById(tasks, id);
      sent := Remove(id);
      pending := View(tasks, loading, error);
      if response.Failure? {
        tasks := originalTasks;
        error := Some(DeleteFailed);
      }
    }

    /** The list's toggle-complete callback: an update of the same task with
        `completed` negated. */
    method ToggleComplete(task: TaskItem, response: Net<TaskItem>) returns (sent: Request)
      modifies this
      ensures sent == Put(task.id, WithCompletedFlipped(task))
      ensures pending == View(old(tasks), old(loading), None)
      ensures response.Success? ==> tasks == ReplaceById(old(tasks), response.data) && error == None
      ensures response.Failure? ==> tasks == old(tasks) && error == Some(UpdateFailed)
      ensures loading == old(loading)
    {
      sent := UpdateTask(WithCompletedFlipped(task), response);
    }
  }

}
