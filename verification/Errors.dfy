/** The errors of the patching library (`PatchError` in `src/lib.rs`). */
module Errors {
  datatype PatchError =
    | InvalidRegister
    | StencilNotFound
    | NotEnded
    | AlreadyEnded
    | InvalidEnd
    | UnresolvedBlockTarget
    | BlockOutOfScope
    | InvalidParams
    | VariableOutOfScope
    | OutOfVariables
}
