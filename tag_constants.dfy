/**
 * Constants and the result-code taxonomy of the Tag program (src/Tag.h).
 */
module TagConstants {

  /** An octet: the element type of every buffer the radio sees. */
  type byte = x: int | 0 <= x < 256

  /** Attempts made to open the HCI socket before giving up. */
  const SOCKET_OPEN_RETRY: nat := 5

  /** AD type "Flags" (Core Specification Supplement, Part A, section 1.3). */
  const EIR_FLAGS: byte := 0x01

  /** AD type "Manufacturer Specific Data" (Core Specification Supplement, Part A, section 1.4). */
  const EIR_MANUFACTURE_SPECIFIC_DATA: byte := 0xFF

  /** Characters in the identifier buffer: 32 hex digits and the terminating NUL. */
  const LENGTH_OF_UUID: nat := 33

  /** The closed set of results every operation of the program reports. */
  datatype ErrorCode =
    | WorkSuccessfully
    | OpenFileError
    | OpenDeviceError
    | OpenSocketError
    | AdvertiseStatusError
    | AdvertiseModeError
    | SendRequestTimeout
  {
    /** The numeric value the C enumeration gives each result. */
    function Value(): (v: nat)
      ensures v < 7
      ensures v == 0 <==> this == WorkSuccessfully
    {
      match this
      case WorkSuccessfully => 0
      case OpenFileError => 1
      case OpenDeviceError => 2
      case OpenSocketError => 3
      case AdvertiseStatusError => 4
      case AdvertiseModeError => 5
      case SendRequestTimeout => 6
    }
  }
}
