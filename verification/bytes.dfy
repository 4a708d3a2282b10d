/** Octets, the unit of the digest the short code is cut from and of the
    storage file's contents. */
module Bytes {

  type byte = b: int | 0 <= b < 256
}
