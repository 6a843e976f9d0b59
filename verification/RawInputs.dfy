/** The sensor channels, and the messages from the acquisition thread to the processing thread. */
module RawInputs {
  import opened Bytes

  type i32 = x: int | -0x8000_0000 <= x < 0x8000_0000

  datatype Channel = Voltage | Current | Temperature

  datatype Timestamped = Timestamped(value: int, tick: u32, valid: bool)

  const UNSET := Timestamped(0, 0, false)

  datatype RawInputs = RawInputs(
    voltage: Timestamped, current: Timestamped, temperature: Timestamped,
    voltageNew: bool, currentNew: bool, temperatureNew: bool)
  {
    function Of(ch: Channel): Timestamped {
      match ch
      case Voltage => voltage
      case Current => current
      case Temperature => temperature
    }

    predicate IsNew(ch: Channel) {
      match ch
      case Voltage => voltageNew
      case Current => currentNew
      case Temperature => temperatureNew
    }
  }

  const NO_INPUTS := RawInputs(UNSET, UNSET, UNSET, false, false, false)
}
