/** The elements of byte buffers. */
module RawBytes {

  type byte = x: int | 0 <= x < 256
}
