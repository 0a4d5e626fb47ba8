/** The router's error kinds (`RouterError` in src/error.rs) and the shapes of a call's outcome. */
module Errors {
  import opened Packets

  /** Rust's `Option`. */
  datatype Option<+T> = None | Some(value: T)

  /** `RouterError`. The channel error carried by `SendError` is dropped. */
  datatype RouterError =
    | IdNotFound(id: NodeId)
    | RemoveSelfErr
    | IdAlreadyPresent(id: NodeId, nodeType: NodeType)
    | RouteNotFound(destination: NodeId)
    | ParentsMalformed(parents: map<NodeId, Option<NodeId>>, destination: NodeId)
    | SendError(destination: NodeId)

  /** `crate::error::Result<T>`. */
  datatype Result<+T> = Ok(value: T) | Err(error: RouterError)

  /** A call that either returns normally or panics. A panic unwinds the thread, so
      whatever the call was about to do afterwards does not happen. */
  datatype Run<+T> = Returns(value: T) | Panics
}
