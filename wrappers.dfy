/** Failure-carrying values shared by every module: `Option`, a `Result` whose
    error side is an `anyhow`-style error chain, and `with_context`. */
module Wrappers {

  datatype Option<T> = None | Some(value: T)

  /** An `anyhow::Error`: a root message, possibly wrapped by context layers
      (the outermost layer is what `{}` prints first). */
  datatype Error = Message(text: string) | Context(context: string, source: Error)

  datatype Result<T> = Ok(value: T) | Err(error: Error) {
    predicate IsFailure() { Err? }

    function PropagateFailure<U>(): Result<U>
      requires Err?
    {
      Err(error)
    }

    function Extract(): T
      requires Ok?
    {
      value
    }
  }

  /** The innermost message of an error chain. */
  function RootCause(e: Error): Error
  {
    match e
    case Message(_) => e
    case Context(_, source) => RootCause(source)
  }

  /** `anyhow::Context::with_context`: a success passes through unchanged,
      a failure gains one outer context layer and keeps its cause. */
  function WithContext<T>(r: Result<T>, context: string): (w: Result<T>)
    ensures w.Ok? <==> r.Ok?
    ensures r.Ok? ==> w.value == r.value
    ensures r.Err? ==> w.error.Context? && w.error.context == context && w.error.source == r.error
    ensures r.Err? ==> RootCause(w.error) == RootCause(r.error)
  {
    match r
    case Ok(v) => Ok(v)
    case Err(e) => Err(Context(context, e))
  }
}
