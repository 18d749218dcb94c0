/** Small types shared by every component of the model. */
module Common {

  /** A value that may be absent. */
  datatype Option<+T> = None | Some(value: T)

  /** An operation's answer: a value, or the reason there is none. */
  datatype Result<+T, +E> = Ok(value: T) | Err(error: E) {
    predicate IsFailure() { Err? }

    function PropagateFailure<U>(): Result<U, E>
      requires Err?
    {
      Err(error)
    }

    function Extract(): T
      requires Ok?
    {
      value
    }
  }

  type Byte = b: int | 0 <= b < 256
  type Bytes = seq<Byte>

  const TWO_63 := 0x8000_0000_0000_0000
  const MAX_INT64 := TWO_63 - 1

  /** The value of a signed 64-bit integer computation. */
  function Wrap64(x: int): (r: int)
    ensures -TWO_63 <= r < TWO_63
    ensures -TWO_63 <= x < TWO_63 ==> r == x
  {
    (x + TWO_63) % (2 * TWO_63) - TWO_63
  }
}
