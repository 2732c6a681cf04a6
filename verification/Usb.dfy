/** What libusb reports about a completed transfer. */
module Usb {
  datatype UsbStatus = Completed | TimedOut | Stall | Overflow | Error | Cancelled | NoDevice

  /** The statuses after which neither completion callback resubmits. */
  predicate Terminal(st: UsbStatus) { st.Error? || st.Cancelled? || st.NoDevice? }
}
