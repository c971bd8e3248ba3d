/** Result types shared by every component. */
module Prelude {

  datatype Option<+T> = None | Some(value: T)

  datatype Result<+T> = Ok(value: T) | Err(error: Error)
  {
    predicate IsFailure() { Err? }

    function PropagateFailure<U>(): Result<U>
      requires Err?
    {
      Err(error)
    }

    function Extract(): T
      requires Ok?
    {
      value
    }
  }

  /** The error kinds of the workspace, without their message strings. */
  datatype Error =
    | NoiseProtocol
    | NoiseDecrypt
    | NoiseReplay
    | IdentityVerify
    | HostState
    | Io
    | DatagramTooLarge
    | WireProtocol
    | RlncLayer

  function Min(a: nat, b: nat): nat {
    if a < b then a else b
  }

  /** The tick before which an entry is idle: `tick.saturating_sub(maxIdle)`. */
  function Cutoff(tick: nat, maxIdle: nat): nat {
    if tick >= maxIdle then tick - maxIdle else 0
  }

  predicate NoRepeats<T(==)>(s: seq<T>) {
    forall i, j :: 0 <= i < j < |s| ==> s[i] != s[j]
  }
}
