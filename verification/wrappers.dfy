/** The result and option types the keyword pipeline returns, with the
    failure-propagation members that let `:-` stop at the first error.

    The generator can stop in three ways: a dictionary lookup of an absent
    key (a Python `KeyError`), the `print(...); exit()` branch taken for an
    unknown keyword kind, and the `IndexError` the documentation pairing
    raises when the filtered macro list has odd length. Each becomes an
    `Err` value carrying an `Error` here.
 */
module Wrappers {

  datatype Option<+T> = None | Some(value: T)

  /** Why a step of the pipeline stopped. */
  datatype Error =
    | UnknownKind(kind: string)   // `texify` met a kind it has no layout for
    | MissingKey(key: string)     // a dictionary lookup of an absent key
    | OddMacroCount(count: nat)   // the documentation pairing ran past the end

  datatype Result<+R> = Ok(value: R) | Err(error: Error) {

    predicate IsFailure() {
      Err?
    }

    function PropagateFailure<U>(): Result<U>
      requires Err?
    {
      Err(error)
    }

    function Extract(): R
      requires Ok?
    {
      value
    }
  }
}
