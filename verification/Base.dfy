/** Types and machine arithmetic shared by the modules. */
module Base {

  datatype Option<+T> = None | Some(value: T) {
    predicate IsFailure() { None? }
    function PropagateFailure<U>(): Option<U>
      requires None?
    {
      None
    }
    function Extract(): T
      requires Some?
    {
      value
    }
  }

  const U32: int := 0x1_0000_0000
  const U64: int := 0x1_0000_0000_0000_0000

  /** The result of a `u64` operation. */
  function Wrap(x: int): (r: nat)
    ensures r < U64 && (0 <= x < U64 ==> r == x)
  {
    x % U64
  }
}
