/**
 * The API's test cases, each on a freshly emptied store as the test set-up
 * leaves it: the request is made, and the contract states what the test
 * expects of the response.
 */
module Scenarios {
  import opened Common
  import opened Errors
  import opened Validation
  import opened Store
  import opened Api

  /** `c.repeat(n)`. */
  function Repeat(c: char, n: nat): (r: string)
    ensures |r| == n
    ensures forall i :: 0 <= i < n ==> r[i] == c
  {
    if n == 0 then [] else [c] + Repeat(c, n - 1)
  }

  method ListEmptyStore() returns (resp: HttpResponse)
    ensures resp == HttpResponse(Status.Ok, TaskListJson([]))
  {
    var store := new TaskStore();
    var ts := store.List();
    resp := RespondList(ts);
  }

  method ListNewestFirst() returns (resp: HttpResponse)
    ensures resp.status == Status.Ok && resp.body.TaskListJson?
    ensures |resp.body.tasks| == 2
    ensures resp.body.tasks[0].title == "Test Task 2"
    ensures resp.body.tasks[1].title == "Test Task 1"
  {
    var store := new TaskStore();
    var t1 := store.Insert("Test Task 1", "", false);
    var t2 := store.Insert("Test Task 2", "", false);
    var ts := store.List();
    assert t1 in ts && t2 in ts;
    assert ts[0] == t2 && ts[1] == t1 by {
      assert forall t :: t in ts ==> t == t1 || t == t2;
    }
    resp := RespondList(ts);
  }

  method CreateValid() returns (resp: HttpResponse)
    ensures resp.status == Created && resp.body.TaskJson?
    ensures resp.body.task.title == "New Task"
    ensures resp.body.task.description == "Test description"
    ensures !resp.body.task.completed
  {
    var store := new TaskStore();
    var title, description := "New Task", "Test description";
    assert !IsWhitespace(title[0]) && !IsWhitespace(title[|title| - 1]);
    assert !IsWhitespace(description[0]) && !IsWhitespace(description[|description| - 1]);
    TrimSpec(title);
    TrimSpec(description);
    assert Trim(title) == title && Trim(description) == description;
    ValidateCreateEmptyIff(Payload(Some(title), Some(description)));
    var o := store.Create(Payload(Some(title), Some(description)));
    resp := RespondTask(o, Created);
  }

  method CreateWithoutTitle() returns (resp: HttpResponse, stored: nat)
    ensures resp.status == BadRequest && resp.body.ErrorJson?
    ensures resp.body.envelope.error == "Validation failed"
    ensures Violation("title", "Title is required") in resp.body.envelope.details
    ensures stored == 0
  {
    var store := new TaskStore();
    MissingTitleIsRequired(Payload(None, Some("No title provided")));
    var o := store.Create(Payload(None, Some("No title provided")));
    resp := RespondTask(o, Created);
    stored := |store.tasks|;
  }

  method CreateWithBlankTitle() returns (resp: HttpResponse, stored: nat)
    ensures resp.status == BadRequest && resp.body.ErrorJson?
    ensures resp.body.envelope.error == "Validation failed"
    ensures Violation("title", "Title is required") in resp.body.envelope.details
    ensures stored == 0
  {
    var store := new TaskStore();
    var p := Payload(Some("   "), Some("Empty title"));
    BlankTitleIsRequired("   ", Some("Empty title"));
    var o := store.Create(p);
    resp := RespondTask(o, Created);
    stored := |store.tasks|;
  }

  method CreateWithLongTitle() returns (resp: HttpResponse)
    ensures resp.status == BadRequest && resp.body.ErrorJson?
    ensures resp.body.envelope.error == "Validation failed"
    ensures Violation("title", "Title must be between 1 and 200 characters") in resp.body.envelope.details
  {
    var store := new TaskStore();
    var title := Repeat('a', 201);
    LongTitleRejected(title, None);
    var o := store.Create(Payload(Some(title), None));
    resp := RespondTask(o, Created);
  }

  method CreateWithLongDescription() returns (resp: HttpResponse)
    ensures resp.status == BadRequest && resp.body.ErrorJson?
    ensures resp.body.envelope.error == "Validation failed"
    ensures Violation("description", "Description cannot exceed 1000 characters") in resp.body.envelope.details
  {
    var store := new TaskStore();
    var description := Repeat('a', 1001);
    LongDescriptionRejected(Some("Valid Title"), description);
    var o := store.Create(Payload(Some("Valid Title"), Some(description)));
    resp := RespondTask(o, Created);
  }

  method UpdateExisting() returns (resp: HttpResponse)
    ensures resp.status == Status.Ok && resp.body.TaskJson?
    ensures resp.body.task.title == "Updated Task" && resp.body.task.completed
  {
    var store := new TaskStore();
    var t := store.Insert("Original Task", "", false);
    var o := store.Update(t.id, Patch(Some("Updated Task"), None, Some(true)));
    resp := RespondTask(o, Status.Ok);
  }

  method UpdateMissing(id: Id) returns (resp: HttpResponse)
    ensures resp.status == NotFound
  {
    var store := new TaskStore();
    var o := store.Update(id, Patch(Some("Updated Task"), None, None));
    resp := RespondTask(o, Status.Ok);
  }

  method DeleteExisting() returns (resp: HttpResponse, afterwards: Option<Task>)
    ensures resp.status == Status.Ok && resp.body.DeletionJson?
    ensures resp.body.message == "Task deleted successfully"
    ensures afterwards == None
  {
    var store := new TaskStore();
    var t := store.Insert("Task to delete", "", false);
    var o := store.Delete(t.id);
    resp := RespondDeletion(o);
    afterwards := store.FindById(t.id);
  }

  method DeleteMissing(id: Id) returns (resp: HttpResponse)
    ensures resp.status == NotFound
  {
    var store := new TaskStore();
    var o := store.Delete(id);
    resp := RespondDeletion(o);
  }

  method ToggleTwice() returns (first: HttpResponse, second: HttpResponse)
    ensures first.status == Status.Ok && first.body.TaskJson? && first.body.task.completed
    ensures second.status == Status.Ok && second.body.TaskJson? && !second.body.task.completed
  {
    var store := new TaskStore();
    var t := store.Insert("Task to toggle", "", false);
    var o1 := store.Toggle(t.id);
    first := RespondTask(o1, Status.Ok);
    var o2 := store.Toggle(t.id);
    second := RespondTask(o2, Status.Ok);
  }

  method ToggleMissing(id: Id) returns (resp: HttpResponse)
    ensures resp.status == NotFound
  {
    var store := new TaskStore();
    var o := store.Toggle(id);
    resp := RespondTask(o, Status.Ok);
  }

}
