/** JavaScript arrays that may still be `undefined` or `null`. */
module Nullables {

  /** A value that is either absent (`null`/`undefined`) or present. */
  datatype Nullable<T> = Null | NonNull(value: T)

  /** The JavaScript guard `xs && xs.length > 0`: present and non-empty. */
  predicate HasItems<T>(xs: Nullable<seq<T>>)
  {
    xs.NonNull? && |xs.value| > 0
  }
}
