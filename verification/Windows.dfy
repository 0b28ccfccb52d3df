/** The window records of the manager. A window carries its neighbours in two lists: `prev` and
    `next` in the list kept in step with the events of the server, `serverPrev` and `serverNext`
    in the list last sent to the server. */
module Windows {

  /** An X resource id. */
  type Window = nat

  /** The id that names no window. */
  const NONE: Window := 0

  datatype WindowType =
    | Desktop | Dock | Toolbar | Menu | Splash | Util | Normal | Dialog | ModalDialog | Fullscreen | Unknown

  /** What stacking and minimizing read of a window, besides its id and its place. */
  datatype Props = Props(
    serverFrame: Window,     // the frame around it on the server, or NONE
    transientFor: Window,    // the id of the window it is a dialog of, listed or not, or NONE
    clientLeader: Window,
    wtype: WindowType,
    above: bool,             // the "keep above" state
    below: bool,             // the "keep below" state
    modal: bool,
    managed: bool,
    unmanaging: bool,
    hidden: bool,            // the "hidden" state
    overrideRedirect: bool,
    mapNum: nat,             // 0 while it is not mapped
    pendingMaps: nat,
    viewable: bool,
    shaded: bool,
    awaitingMap: bool,
    onServer: bool,          // whether the server still knows it
    focusable: bool,         // what CompWindow::focus answers
    inputHint: bool,         // whether it takes the input focus from the manager
    takeFocus: bool)         // whether it takes part in WM_TAKE_FOCUS

  const NO_PROPS := Props(NONE, NONE, NONE, Unknown, false, false, false, false, false, false, false,
                          0, 0, false, false, false, true, false, true, false)

  class CompWindow {
    var id: Window
    var frame: Window
    var props: Props

    var minimized: bool

    var destroyRefCnt: int
    var destroyed: bool

    var prev: CompWindow?
    var next: CompWindow?
    var serverPrev: CompWindow?
    var serverNext: CompWindow?

    constructor (id: Window)
      ensures this.id == id && frame == NONE && props == NO_PROPS
      ensures !minimized && destroyRefCnt == 1 && !destroyed
      ensures prev == null && next == null && serverPrev == null && serverNext == null
    {
      this.id, frame, props := id, NONE, NO_PROPS;
      minimized, destroyRefCnt, destroyed := false, 1, false;
      prev, next, serverPrev, serverNext := null, null, null, null;
    }
  }

  /** Whether a window with this id and this frame is the one that `sibling` names. */
  predicate Names(id: Window, frame: Window, sibling: Window) {
    id == sibling || (frame != NONE && frame == sibling)
  }
}
