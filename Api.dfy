/**
 * The HTTP side of the task routes: how each operation's outcome becomes a
 * status code and a JSON body, errors going through the error envelope.
 */
module Api {
  import opened Errors
  import opened Store

  datatype Body =
    | TaskJson(task: Task)
    | TaskListJson(tasks: seq<Task>)
    | DeletionJson(message: string, id: Id)
    | ErrorJson(envelope: ErrorEnvelope)

  datatype HttpResponse = HttpResponse(status: Status, body: Body)

  /** The error handler's response to a raised failure. */
  function ErrorResponse(e: AppError): (r: HttpResponse)
    ensures r.status.Code() >= 400 && r.body.ErrorJson?
    ensures e.ValidationError? ==> r.status.Code() == 400 && r.body.envelope.error == "Validation failed"
    ensures e.ValidationError? ==> r.body.envelope.details == e.details
    ensures e.NotFoundError? ==> r.status.Code() == 404 && r.body.envelope.details == []
  {
    HttpResponse(StatusOf(e), ErrorJson(EnvelopeOf(e)))
  }

  /** GET /api/tasks. */
  function RespondList(ts: seq<Task>): (r: HttpResponse)
    ensures r.status.Code() == 200 && r.body.TaskListJson? && r.body.tasks == ts
  {
    HttpResponse(Status.Ok, TaskListJson(ts))
  }

  /** POST /api/tasks answers 201 with the created task, PUT and PATCH answer
      200 with the changed one; a failure is answered by the error handler. */
  function RespondTask(o: Outcome<Task>, success: Status): (r: HttpResponse)
    requires success.Code() < 300
    ensures r.status.Code() < 300 <==> o.Done?
    ensures o.Done? ==> r.status == success && r.body == TaskJson(o.value)
    ensures o.Failed? ==> r == ErrorResponse(o.error)
  {
    match o
    case Done(t) => HttpResponse(success, TaskJson(t))
    case Failed(e) => ErrorResponse(e)
  }

  /** DELETE /api/tasks/:id answers 200 with `{message, id}`. */
  function RespondDeletion(o: Outcome<Deletion>): (r: HttpResponse)
    ensures r.status.Code() == 200 <==> o.Done?
    ensures o.Done? ==> r.body == DeletionJson(o.value.message, o.value.id)
    ensures o.Failed? ==> r == ErrorResponse(o.error)
  {
    match o
    case Done(d) => HttpResponse(Status.Ok, DeletionJson(d.message, d.id))
    case Failed(e) => ErrorResponse(e)
  }

}
