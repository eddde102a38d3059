/**
 * The fixed-width Rust types the torrent code stores, and the one error type
 * both torrent-file modules define.
 */
module Primitives {

  /** Rust `u8`: one byte of a `Vec<u8>` or `ByteBuf`. */
  type byte = x: int | 0 <= x < 256

  /** Rust `u8` used as a number (the `private` flag). */
  type u8 = byte

  /** Rust `i64`. */
  type i64 = x: int | -0x8000_0000_0000_0000 <= x < 0x8000_0000_0000_0000

  /** A 20-byte value: a SHA-1 digest or a peer id. */
  type Bytes20 = s: seq<byte> | |s| == 20 witness seq(20, i => 0)

  /** `GenericError(String)`; its `Display` puts a fixed prefix before the message. */
  datatype GenericError = GenericError(msg: string)

  function Display(e: GenericError): (s: string)
    ensures |s| > |e.msg| && s[|s| - |e.msg|..] == e.msg
  {
    "There is an error: " + e.msg
  }
}
