/**
  Failure values shared by the whole model.

  Each constructor of `Error` stands for one way the Python code raises; the
  comment beside it names the Python exception class involved, and
  `IsValueError` groups the constructors that are a `ValueError` there.
 */
module Errors {

  /** Conventional optional value, used for Python's `None` defaults. */
  datatype Option<T> = None | Some(value: T)

  datatype Error =
    | LengthMismatch(given: nat, expected: nat) // ValueError: tuple length differs from the parameter names
    | NotInGrid(axis: nat)                      // ValueError: a coordinate is not one of its axis's points
    | EmptyWindow                               // ValueError: clipped wavelength maximum below the minimum
    | DuplicateKey(key: string)                 // ValueError from HDF5: dataset name already exists
    | KeyNotFound(key: string)                  // KeyError from HDF5: no dataset under that name
    | BadKeyName                                // ValueError: the first stored row cannot be loaded back
    | EmptyMatrix                               // ValueError: min/max of a zero-size parameter matrix
    | IndexOutOfRange                           // IndexError
    | WeightsMismatch(samples: nat)             // np.average: weights and samples differ in length
    | DivisionByZero                            // ZeroDivisionError
    | Unpack(given: nat, expected: nat)         // ValueError: wrong number of values to unpack
    | NameNotDefined(name: string)              // NameError: a module name that is never imported
    | WrongArity(given: nat, expected: nat)     // TypeError: a call with the wrong number of arguments

  predicate IsValueError(e: Error) {
    e.LengthMismatch? || e.NotInGrid? || e.EmptyWindow? || e.DuplicateKey? ||
    e.BadKeyName? || e.EmptyMatrix? || e.Unpack?
  }

  /** A value, or the error the source raises instead of producing it. */
  datatype Result<T> = Ok(value: T) | Err(error: Error)
}
