/** Optional values, for Swift's `T?` results (`firstIndex(where:)`, `try?`, `init(rawValue:)`). */
module Wrappers {

  datatype Option<+T> = None | Some(value: T)
}
