// Values shared by every module: optional values, results that stand for the
// source's exceptions, and reals extended with the source's float("inf").
module Wrappers {

  datatype Option<+T> = None | Some(value: T)

  // Ok is a normal return; Error stands for a raised exception.
  datatype Result<+T, +E> = Ok(value: T) | Error(error: E)

  // A float that is either finite or positive infinity.
  datatype Ext = Fin(r: real) | Inf

  predicate Less(a: Ext, b: Ext) {
    a.Fin? && (b.Inf? || a.r < b.r)
  }

  predicate AtMost(a: Ext, b: Ext) {
    b.Inf? || (a.Fin? && a.r <= b.r)
  }

  function Plus(a: Ext, b: Ext): Ext {
    if a.Fin? && b.Fin? then Fin(a.r + b.r) else Inf
  }

  function Max(a: real, b: real): real {
    if a < b then b else a
  }

  function Min(a: real, b: real): real {
    if b < a then b else a
  }
}
