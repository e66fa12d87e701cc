/** Small failure-carrying datatypes shared by the model of the admin page. */
module Wrappers {

  /** A value that may be missing: an optional property of a JavaScript object, or `null`. */
  datatype Option<+T> = None | Some(value: T) {

    /** The encapsulated value, or `default` when missing (JavaScript's `??`). */
    function GetOr(default: T): T {
      match this
      case Some(v) => v
      case None => default
    }
  }

  /** What the page learns from one `fetch` whose body it reads: either the parsed body of
      a 2xx response, or a failure. A non-2xx status and a network error both end in the
      handler's `catch` block, so the page cannot tell them apart. */
  datatype Response<+T> = Ok(body: T) | Failed

  /** What `Promise.all` sees of one `fetch` whose status is never inspected: the request
      either failed at the network level (the promise rejects) or a response arrived,
      successful or not. */
  datatype FetchStatus = NetworkError | Responded(ok: bool)
}
