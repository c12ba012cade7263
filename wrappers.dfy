/** The usual optional-value datatype, for the partial decoders that
    serve as inverses of the renderers. */
module Wrappers {

  datatype Option<T> = None | Some(value: T)
}
