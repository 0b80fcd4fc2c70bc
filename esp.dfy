/**
 * Types and result codes of the ESP-IDF interfaces the camera server's
 * handlers share.
 */
module Esp {

  /** An octet of an image or of a response chunk. */
  type Byte = b: int | 0 <= b < 256

  /** `esp_err_t` values the handlers produce themselves. */
  const EspOk: int := 0
  const EspFail: int := -1
}
