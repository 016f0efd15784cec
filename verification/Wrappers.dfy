/** Values that may be absent, and the error codes shared by the models. */
module Wrappers {

  datatype Option<+T> = None | Some(value: T)

  /** The system-wide error codes the modelled calls return. */
  datatype Error =
    | ErrNone
    | ErrNotFound
    | ErrCancel
    | ErrNotSupported
    | ErrArgument
    | ErrOverflow
    | ErrBadHandle
    | ErrAlreadyExists
    | ErrInUse
    | ErrNoMemory
    | ErrBadPointer
    | ErrTooBig

  lemma Associate<T>(a: seq<T>, b: seq<T>, c: seq<T>)
    ensures (a + b) + c == a + (b + c)
  {
  }
}
