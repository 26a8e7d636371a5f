/** An optional value: `None` stands for PHP's `null` return (or no return at all). */
module Wrappers {

  datatype Option<+T> = None | Some(value: T)

}
