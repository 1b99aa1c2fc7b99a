/** Types shared by the models of the launcher, the Route Guard and the control plane. */
module Common {

  datatype Option<+T> = None | Some(value: T)

  /** One octet of a file, of a packet or of an address. */
  type byte = x: int | 0 <= x < 256

  /** A Windows process id; 0 stands for "none". */
  type Pid = x: int | 0 <= x < 0x1_0000_0000

  /** An unsigned 16-bit port number. */
  type port = x: int | 0 <= x < 0x1_0000
}
