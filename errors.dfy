/** Error values of the library (src/errors.rs) and the Result alias built on them. */
module Errors {

  /** The four validation failures of `normalize`. Only the two invalid-symbol
      cases carry a payload: the offending allele, unchanged. */
  datatype Error =
    | RefBasesEmptyError
    | AltBasesEmptyError
    | RefBasesInvalidSymbolError(bases: string)
    | AltBasesInvalidSymbolError(bases: string)

  /** `Result<T, E = Error>`: either a value or one of the errors above. */
  datatype Result<T> = Ok(value: T) | Err(error: Error)
}
