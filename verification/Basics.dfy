/** Definitions every part of the model uses. */
module Basics {

  datatype Option<+T> = None | Some(value: T)

  datatype Result<+T, +E> = Ok(value: T) | Err(error: E)

  function Min(a: nat, b: nat): nat {
    if a < b then a else b
  }

  function MinReal(a: real, b: real): real {
    if a <= b then a else b
  }

  function MaxReal(a: real, b: real): real {
    if a >= b then a else b
  }

  /** The elements of the first `k` groups in order. */
  ghost function Flatten<T>(groups: seq<seq<T>>, k: nat): seq<T>
    requires k <= |groups|
  {
    if k == 0 then [] else Flatten(groups, k - 1) + groups[k - 1]
  }
}
