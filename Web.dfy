/** What the route handlers see of the outside world: an optional value and the outcome of one
    outbound `fetch` (a reply with a status and a body, or a thrown error). */
module Web {

  datatype Option<+T> = None | Some(value: T)

  /** The outcome of one `fetch` call: the reply, or an exception (DNS failure, reset, unreadable body). */
  datatype Upstream<+T> = Reply(status: int, body: T) | Thrown

  /** `response.ok`: the status lies in 200..299. */
  predicate IsOk(status: int) {
    200 <= status <= 299
  }

  /** The reply of a successful fetch, if any; the routes fail over on everything else. */
  predicate Succeeded<T>(u: Upstream<T>) {
    u.Reply? && IsOk(u.status)
  }
}
