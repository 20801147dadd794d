/** The exceptions that matter to the bin-coverage step. */
module Errors {

  /** An exception raised by Python code: the two kinds the correction path
      tells apart, and everything else. */
  datatype Exception =
    | InvalidIndexError   // pandas.core.indexes.base.InvalidIndexError
    | ValueError          // a failed tuple unpacking, a failed int(), a matrix concat error
    | OtherException      // any other exception class

  /** Why a whole analysis run stops without a report. */
  datatype RunError =
    | ChromosomeNotFound(name: string)  // KeyError on the requested chromosome
    | BinFailed(error: Exception)       // a bin's exception re-raised by the pool's get()
}
