/** Types that several parts of the model share. */
module Basics {

  type Byte = x: int | 0 <= x < 0x100

  datatype Option<T> = None | Some(value: T)

  datatype Result<T, E> = Ok(value: T) | Err(reason: E)
}
