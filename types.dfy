/** Machine types, enumerations and constants shared by the LSM6 driver model. */
module LsmTypes {

  /** `uint8_t`, `uint16_t` and `int16_t` of the C++ source. */
  type uint8 = x: int | 0 <= x < 0x100
  type uint16 = x: int | 0 <= x < 0x1_0000
  type int16 = x: int | -0x8000 <= x < 0x8000

  datatype Option<T> = None | Some(value: T)

  /** `deviceType`: the one known chip variant, or "detect it". */
  datatype DeviceType = Ds33 | DeviceAuto

  /** `sa0State`: level of the SA0 address-select pin, or "detect it". */
  datatype Sa0State = Sa0Low | Sa0High | Sa0Auto

  /**
   * Register selectors used by the driver. Their numeric values live in a
   * header that is not part of this model, so they are kept as distinct,
   * otherwise opaque constants.
   */
  datatype Reg = WhoAmI | Ctrl1Xl | Ctrl2G | Ctrl3C | OutxLXl | OutxLG

  /** 7-bit bus addresses of the DS33 for each SA0 level. */
  const Ds33Sa0HighAddress: uint8 := 0x6B  // 0b1101011
  const Ds33Sa0LowAddress: uint8 := 0x6A   // 0b1101010

  /** Value of WHO_AM_I on a DS33. */
  const Ds33WhoId: int := 0x69

  /** Sentinel returned by a failed identity probe. */
  const TestRegError: int := -1
}
