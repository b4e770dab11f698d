/** Option and Result values for the model: JavaScript's `undefined` results and thrown exceptions. */
module Wrappers {

  datatype Option<+T> = None | Some(value: T)

  /** The exceptions the modelled code can raise. */
  datatype JsError =
    | TypeError    // Object.keys(null) or Object.keys(undefined) inside deepCompareShapes
    | SyntaxError  // JSON.parse of a corrupt shape file
    | NoSuchFile   // reading or removing a file that is not there (ENOENT)

  datatype Result<+T> = Ok(value: T) | Err(error: JsError)
}
