/** The notifications the overlay can raise (src/ui/toast.rs:63-69). */
module Toasts {
  datatype Toast =
    | GamepadConnected(name: string)
    | GamepadDisconnected(name: string)
    | LastGamepadDisconnected
    | DlnaDeviceDiscovered(name: string)
}
