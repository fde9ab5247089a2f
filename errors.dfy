/** Failure values used in place of the exceptions the tracker throws. */
module Errors {

  /** An absent value, used where the source returns null. */
  datatype Option<+T> = None | Some(value: T)

  /** Why an operation was refused. The first four are the messages of the
      tracker's BugTrackingException; EmptyTitle is the IllegalArgumentException
      that Bug.setTitle throws. Each carries the identifier that was not found. */
  datatype Error =
    | ReporterNotFound(reporterId: string)
    | BugNotFound(bugId: string)
    | AssigneeNotFound(assigneeId: string)
    | AuthorNotFound(authorId: string)
    | EmptyTitle

  /** The outcome of an operation that returns a value or throws. */
  datatype Result<+T> = Success(value: T) | Failure(error: Error)

  /** The outcome of a void operation that may throw. */
  datatype Outcome = Pass | Fail(error: Error)
}
