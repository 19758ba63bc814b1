/** Optional values: Kotlin's nullable references (`T?`) in the modelled service. */
module Wrappers {

  datatype Option<+T> = None | Some(value: T)

}
