/** Result types shared by the native components. */
module Basics {

  datatype Option<+T> = None | Some(value: T)

  /** One byte of file or wire data. */
  type Byte = b: int | 0 <= b < 256

  /** What a presence probe answers. */
  datatype Probe = Absent | Present | ProbeError

  /** What a mutating step answers: the account, job and file layers share these four values. */
  datatype Answer = Ok | NoEffect | Ambiguous | Error
}
