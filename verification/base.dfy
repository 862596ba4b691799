/** Shared vocabulary: optional values, the Python exceptions the handlers can
    raise, object handles, image channels and Python's list indexing. */
module Base {

  /** Python's `None` or a value. */
  datatype Option<T> = None | Some(value: T)

  /** The built-in exceptions the modelled code can raise. */
  datatype PyError = IndexError | KeyError | TypeError | ValueError | AttributeError

  /** A value, or the exception that was raised instead of producing it. */
  datatype Result<T> = Ok(value: T) | Err(error: PyError)

  /** Identity of a RegionOfInterest object (regions compare by identity, never by name). */
  type RegionId = nat

  /** Identity of a WindowSet object. */
  type WsId = nat

  /** The histogram channel of an image (the `Band` enumeration). */
  datatype Channel = Grey | Red | Green | Blue

  /** Python list indexing `xs[i]` on a list of length n: negative indices count
      from the end; anything else outside the list raises IndexError (None here). */
  function PyIndex(n: nat, i: int): (r: Option<nat>)
    ensures r.Some? <==> -(n as int) <= i < n
    ensures r.Some? ==> r.value < n && r.value as int % n == i % n
    ensures 0 <= i < n ==> r == Some(i as nat)
  {
    if 0 <= i < n then Some(i)
    else if -(n as int) <= i < 0 then Some(n + i)
    else None
  }
}
