/** Small shared vocabulary: bytes, an Option that works with `:-`, and the
    result of reading one field from a byte sequence. */
module Common {

  /** One octet of a frame or of an HTTP body. */
  type byte = bv8

  datatype Option<+T> = None | Some(value: T) {
    predicate IsFailure() { None? }

    function PropagateFailure<U>(): Option<U>
      requires None?
    {
      None
    }

    function Extract(): T
      requires Some?
    {
      value
    }
  }

  /** A value read from a byte sequence together with the index just after it
      (the reader index of the buffer once the read is done). */
  datatype Step<+T> = Step(value: T, next: nat)

  /** The value of a read, forgetting where it ended. */
  function ValueOf<T>(s: Option<Step<T>>): Option<T> {
    if s.Some? then Some(s.value.value) else None
  }

  /** Where the reader index stands after a read that started at `p`: a read
      that fails leaves it where it was. */
  function NextOf<T>(s: Option<Step<T>>, p: nat): nat {
    if s.Some? then s.value.next else p
  }

  /** `BitUtil.check(v, i)`: bit `i` of `v` is set. */
  predicate Bit(v: byte, i: nat)
    requires i < 8
  {
    (v >> i) & 1 == 1
  }
}
