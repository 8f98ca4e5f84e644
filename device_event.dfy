/** The `DeviceAvailabilityEvent` record both availability handlers work on. */
module DeviceEvent {
  /** `availableCount` is a JavaScript number, so it may be fractional where nothing validated it. */
  datatype DeviceAvailabilityEvent = DeviceAvailabilityEvent(deviceModel: string, availableCount: real, timestamp: string)
}
