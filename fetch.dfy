/**
 * How the pages see the backend. A `fetch` either rejects (the host is not reachable)
 * or yields a response with an `ok` flag whose body `response.json()` either parses
 * into a value of the expected shape or rejects. The network itself is not modelled.
 */
module Fetch {

  /** What `await response.json()` produces. */
  datatype Parsed<+T> = Json(value: T) | NotJson(message: string)

  /** What `await fetch(...)` produces. */
  datatype Reply<+T> = Unreachable(message: string) | Received(ok: bool, body: Parsed<T>)

  /** The response arrived with an ok status and a well-formed body. */
  predicate Delivered<T>(reply: Reply<T>)
  {
    reply.Received? && reply.ok && reply.body.Json?
  }

  /** The response arrived with an ok status; the body is not read. */
  predicate Succeeded<T>(reply: Reply<T>)
  {
    reply.Received? && reply.ok
  }
}
