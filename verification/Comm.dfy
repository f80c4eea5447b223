/** What several parts of the server share, as _include/ngx_comm.h does. */
module Comm {
  type Byte = b: int | 0 <= b < 256

  const HEADER := 8                               // sizeof(COMM_PKG_HEADER)
  const WRAP: nat := 0x1_0000_0000_0000_0000      // uint64_t counts modulo this
}
