/** Small value shapes and arithmetic facts shared by the rest of the model. */
module Common {

  /** Ruby's `nil` or a value. */
  datatype Option<T> = None | Some(value: T) {
    function GetOr(default: T): T {
      match this
      case Some(v) => v
      case None => default
    }
  }

  /** Presence of a key in an options hash: `options.key?(k)` tells `Absent`
      from `Present(nil)`, which `options[k]` does not. */
  datatype Key<T> = Absent | Present(value: T)

  /** Multiplying by a natural number keeps the order of the other factor. */
  lemma {:induction false} MulMonotone(a: nat, b: int, c: int)
    requires b <= c
    ensures a * b <= a * c
  {
    if a > 0 {
      MulMonotone(a - 1, b, c);
      assert a * b == (a - 1) * b + b && a * c == (a - 1) * c + c;
    }
  }

  /** Concatenation is associative. */
  lemma AppendAssoc<T>(a: seq<T>, b: seq<T>, c: seq<T>)
    ensures a + (b + c) == (a + b) + c
  {
  }
}
