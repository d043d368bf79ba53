/** Optional values and computations that either succeed or raise. */
module Results {

  /** A value that may be absent, such as a JSON key that is not present. */
  datatype Option<T> = Some(value: T) | None

  /** Python's `dict.get(key, default)` once the lookup is done: the value
      found, or `default` when the key was absent. */
  function GetOr<T>(found: Option<T>, default: T): T {
    if found.Some? then found.value else default
  }

  /** The outcome of a computation that either returns a value or raises an error. */
  datatype Result<+T, +E> = Ok(value: T) | Err(error: E)
}

/** Python exceptions, reduced to what the modelled code observes of them. */
module Exceptions {
  import opened Results

  /** The HTTP response object an exception may carry in its `response` attribute;
      `truthy` is its truth value in Python and `text` its body text. */
  datatype AttachedResponse = AttachedResponse(truthy: bool, text: string)

  /** A raised exception: `text` is `str(e)`, and `response` is the `response`
      attribute when the exception has one. */
  datatype Exc = Exc(text: string, response: Option<AttachedResponse>)

  /** `raise Exception(text)` and the like: an exception with no response attached. */
  function Raise(text: string): (e: Exc)
    ensures e.text == text && e.response.None?
  {
    Exc(text, None)
  }
}
