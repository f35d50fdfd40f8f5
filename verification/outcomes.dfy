/** The shape of one controller call over the in-memory store. */
module Outcomes {
  import opened Basics
  import opened Models
  import opened Errors
  import opened Notifications

  /** What a request leaves behind: the database afterwards, the response body
      (or the error handed to `next`), and the messages it tried to send. */
  datatype Outcome<T> = Outcome(store: Store, result: Result<T, ApiError>, outbox: seq<Notification>)

  /** An error raised before anything was written or sent. */
  function Fail<T>(s: Store, e: ApiError): Outcome<T> {
    Outcome(s, Err(e), [])
  }
}
