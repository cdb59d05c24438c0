/**
 * Values shared by the step list, the formula registry and the event
 * dispatcher: identifiers, the opaque values handed to steps, step
 * callables and the outcome of calling one.
 */
module Support {

  /** A Ruby identifier: a Symbol (`:one`) or a String (`"one"`). The two are
      different keys; both print as their text. */
  datatype Name = Sym(text: string) | Str(text: string)

  /** A value handed to a step or handler (a context, a target, an options
      hash). Only its identity matters here: `nil`, the default options hash
      `{}` (one value here, where Ruby builds a new hash on every call), or
      some other object. What it contains lives in the world state. */
  datatype Value = NilValue | EmptyHash | Obj(id: nat)

  /** What is stored as a step: `nil`, or something that responds to `call`
      (a Proc, a class with `self.call`, an instance with `call`). */
  datatype Callable = NilStep | Proc(id: nat)

  /** A Ruby exception. */
  datatype Fault = NoMethodError | ArgumentError | Raised(message: string)

  /** What one call of a callable does to the world state: it returns, or it
      raises, possibly after changing part of the state. */
  datatype StepResult<W> = Returned(state: W) | Threw(fault: Fault, state: W)

  /** How the opaque callables behave: given the callable's identity, the two
      arguments and the current contents of the world, what the call does. */
  type Behaviour<!W> = (nat, Value, Value, W) -> StepResult<W>

  /** The outcome of a whole run: every call returned, or an exception
      escaped to the caller. */
  datatype Outcome = Completed | Failed(fault: Fault)

  datatype Option<T> = None | Some(value: T)

  datatype Result<T> = Ok(value: T) | Err(fault: Fault)

  /** Calling a stored step: `nil.call` raises NoMethodError and changes nothing. */
  function Invoke<W>(beh: Behaviour<W>, callable: Callable, context: Value, options: Value, w: W): (r: StepResult<W>)
    ensures callable == NilStep ==> r == Threw(NoMethodError, w)
    ensures callable.Proc? ==> r == beh(callable.id, context, options, w)
  {
    match callable
    case NilStep => Threw(NoMethodError, w)
    case Proc(id) => beh(id, context, options, w)
  }

  /** A behaviour in which no call ever raises. */
  ghost predicate NeverThrows<W(!new)>(beh: Behaviour<W>)
  {
    forall id, c, o, w :: beh(id, c, o, w).Returned?
  }
}
