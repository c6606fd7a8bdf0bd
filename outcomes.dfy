/** Failure-carrying results shared by every module of the model.

    Python signals failure by raising; here every operation that can raise returns
    a `Result` (or an `Option<Error>` when it has no value to return), and `Error`
    names the exception that the source would raise. */
module Outcomes {

  datatype Option<+T> = None | Some(value: T) {
    function GetOr(default: T): T {
      match this
      case Some(v) => v
      case None => default
    }
  }

  /** The exceptions the modelled code raises or lets through. */
  datatype Error =
    | ConfigDoesNotExist             // l4_core AppCollectionsConfigDoesNotExistException
    | CollectionAlreadyExists        // l4_core AppCollectionsAlreadyExistsException
    | ServiceCollectionAlreadyExists // l3_services AppCollectionsAlreadyExistsException
    | KeyError(key: string)          // a missing dictionary key
    | ObserverNotAttached            // KeyError from set.remove in ObservableMixin.detach
    | TypeError
    | ValueError
    | AttributeError
    | OSError(errno: int)
    | GitError                       // any failure reported by the git client
    | JMESPathTypeError              // a JMESPath function applied to a value of the wrong type
    | ConfigValidation(message: string) // a manifest parser's validation exception, with its str()

  datatype Result<+T> = Ok(value: T) | Err(error: Error)

  /** errno values used by the model (Linux numbering). */
  const ENOENT: int := 2
  const ENOTDIR: int := 20
  const EISDIR: int := 21
}
