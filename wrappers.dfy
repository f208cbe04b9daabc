/** Failure-carrying results shared by the modules of the model. */
module Wrappers {

  datatype Option<+T> = None | Some(value: T)

  /** The exceptions the modelled code raises. */
  datatype Error =
    | ValueError(message: string)       // invalid configuration
    | IndexError                        // a Karva scan that runs past the end of a gene
    | AttributeError(name: string)      // an attribute terminal the input object lacks
    | NotImplementedError               // fitness not supplied by the problem definition

  datatype Result<+T> = Success(value: T) | Failure(error: Error)
}
