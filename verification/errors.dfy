/** The ways the script stops early: an error exit or an uncaught exception. */
module Errors {
  datatype Error =
    | ProfileNotFound        // the profile name is not a configuration section
    | ProfileEmpty           // the scan left the profile dictionary empty
    | MissingKey(key: string) // a dictionary lookup raised KeyError
    | ZeroDivision           // `counter % columns` with zero columns
}
