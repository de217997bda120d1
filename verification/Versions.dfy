/** Protocol versions as they appear on the wire. */
module Versions {
  import opened Bytes

  const VERSION_TLS10: u16 := 0x0301
  const VERSION_TLS11: u16 := 0x0302
  const VERSION_TLS12: u16 := 0x0303
  const VERSION_TLS13: u16 := 0x0304
}
