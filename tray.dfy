/** The collaborators the tray loop talks to, reduced to the values it reads:
    the decoded icons, the mouse and menu events, and the scheduler's control flow. */
module Tray {

  /** The result of a non-blocking receive: `Some` event, or `None` when the channel is empty. */
  datatype Option<T> = None | Some(value: T)

  /** An icon as the loader hands it to the tray: RGBA pixel bytes and the image size. */
  datatype Icon = Icon(rgba: seq<bv8>, width: nat, height: nat)

  datatype MouseButton = Left | Right | Middle

  datatype MouseButtonState = Up | Down

  /** A tray icon event. Only `Click` carries what the loop inspects; double clicks,
      enter, move and leave events are all `Other`. The click position is not read. */
  datatype TrayIconEvent =
    | Click(button: MouseButton, buttonState: MouseButtonState)
    | Other

  /** The identity token of a menu item. */
  type MenuId = string

  /** A menu selection: the identity of the item that was chosen. */
  datatype MenuEvent = MenuEvent(id: MenuId)

  /** What the tick tells the event loop: wake again at `deadline` (in ms), or stop. */
  datatype ControlFlow = WaitUntil(deadline: nat) | Exit
}
