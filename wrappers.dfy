/** The one optional-value type the model needs: JavaScript's `undefined` and
    Python's `None` results are written `None`. */
module Wrappers {

  datatype Option<+T> = None | Some(value: T)

}
