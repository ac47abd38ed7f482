/** What a network call can come back with, as seen by the code that awaits
    it. The pages never see a request in flight: each handler is modelled as
    the state it leaves once the awaited outcome is known. */
module Net {

  /** A request whose response the caller only inspects for `ok` (or not at
      all): the promise either resolves with a response or rejects. */
  datatype Settled = Resolved(ok: bool) | Rejected(reason: string)

  /** A loader that branches on `response.ok`: the ok branch parses the body
      as data, the other branch reads it as text. Anything thrown on the way,
      by `fetch` or by reading the body, lands in `Thrown` with the error's
      message. */
  datatype Loaded<T> = Thrown(message: string) | OkBody(data: T) | ErrBody(text: string)

  /** A `.then(res => res.json())` chain that never looks at `response.ok`:
      either some JSON was decoded (whatever the status) or something threw. */
  datatype JsonReply<T> = Unreadable(message: string) | Decoded(data: T)
}
