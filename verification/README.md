# Verification model of the compiz core

A Dafny model of the data structures and state machines of the compiz window manager, with proofs of
what they keep over whole runs. The X server is an oracle: what it grants or refuses is not
determined, and what it has been sent is recorded.

Check everything with `dafny verify dfyconfig.toml`.

## Structure

- `Values`, `Sequences`, `Windows`: shared values, lists without repetition, the window records.
- `WindowLists`: the two stacking lists with their links, the map and the lookup cache, the restacks that
  the server reports, and the life of a window from its creation through its destruction to its deletion.
- `TransientForest`: the links of WM_TRANSIENT_FOR (section 4.1.2.6 of the Inter-Client Communication
  Conventions Manual) and the check that keeps them free of cycles. `ModalTransients`, `ModalSearch`:
  the search for the modal dialog of a window. `InputFocus`, `FocusMoves`: the focus that is handed on to it
  or to an ancestor (section 4.1.7 there). `ClientLeaders`: the leader that a window inherits.
- `Stacking`, `RestackProofs`, `ReplayProofs`, `RestackTheorems`: restacking on ids; `GroupWalks`,
  `GroupClashes`, `RestackGroups`, `WalkOrder`, `GroupBlocks`: what window groups make of it; `RestackOrder`:
  the order that it keeps;
  `Docks`, `DockOrder`: the docks that follow; `LayerOrder`, `StackDebugger`, `RaiseTheorems`,
  `RaiseGroups`, `FullscreenTop`: where a raised window goes, and the order of layers (compare "Stacking order" in the
  Extended Window Manager Hints). `Restacking`, `Moving`, `Docking`, `Raising`: the same operations on the
  window records, proved to do what these modules say.
- `Minimize`: minimizing and unminimizing as depth-first walks.
- `BufferModel`, `BufferProofs`, `ConfigureBuffer`: the configure request buffer as a step machine and
  as objects; `FrameGeometry`, `PrivateWindow`: the geometry of a window and its frame above it
  (section 4.1.5 of the Inter-Client Communication Conventions Manual); `FrameExtents`: where new
  extents of the frame put it; `RestackGeometry`: what a restack does to it.
- `MatchSyntax`, `MatchReader`, `MatchProofs`, `MatchEscapes`, `MatchEval`, `MatchMeaning`, `Matches`: the
  match language.
- `PluginLists`, `Plugins`: bringing the running plugins in line with those asked for.
- `Grabs`, `FocusHistory`, `ViewportMath`, `Viewports`: smaller machines.
- `DecorProperty`, `DecorData`, `DecorQuads`, `DecorBoxes`: the decoration property, and where its
  quads lie when they are drawn (plugins/decor/src/decor.cpp:474-540).

Where a component changes state in place, it is a class or a method with loops, proved against functions
of values; the theorems are about these functions.

## What the code turned out not to do

Each of these is a lemma with an input, or an exact condition:

- A restack in a group can drop windows from the server list (`RestackGroups.GroupsCanLoseWindows`,
  `RestackGroups.RestackKeepsAllIff`): a dialog shared by two main windows is collected for both, and
  is put above itself when it is collected last for the upper one and first for the lower one and the
  upper one, unmapped or a desktop, is not put in between (`GroupClashes.GroupClash`).
- A dialog of a dock can get below its dock (`RestackOrder.DialogCanGetBelowDock`): the climb to the
  ancestors stops there (`RestackOrder.RestackKeepsShownIff`).
- An active fullscreen window is not raised at all while its own dialog is the topmost window
  (`FullscreenTop.FullscreenCanStayBelow`, `FullscreenTop.RaisedOnTopIff`).
- A main window is not raised at all when the search has passed over one of its group transients and found a
  dialog of that one (`RaiseGroups.MainCanStayBelow`, `RaiseGroups.RaisedAboveIff`).
- Where only windows below the fullscreen one could carry the docks, the docks stay where they are: the look
  for one tests the type of the fullscreen window itself (`DockOrder.DocksCanStayAbove`, `Docking.LookBelow`).
- A window can be lost from the window list when the server reports a restack: the guard looks for the other
  window by id or frame on the server, the insertion by id or frame (`WindowLists.RestackCanLoseAWindow`,
  `WindowLists.WindowManager.Restack`).
- A request that carries geometry and stacking gives a window the geometry of its nearest ancestor, since the
  same request is used for all of them (`RestackGeometry.DialogGetsGeometryOfParent`,
  `RestackGeometry.GeometryAsRequestedIff`).
- The first frame of a window can be put outside the work area, which the code means to prevent: a window
  that has been taken back to the start is moved on by the size of the frame once more
  (`FrameExtents.FirstFrameCanLeaveWorkarea`, `FrameExtents.FirstFrameInsideIff`).
- The input focus can be handed back and forth without end between a window and a modal dialog that does not
  take it (`InputFocus.FocusCanGoInCircles`, `InputFocus.AlwaysEndsIff`).
- The modal dialog found for a window may have a modal dialog of its own, when that is the topmost
  window (`ModalTransients.ModalMissedIff`).
- A slot of a decoration property holds 23 quads, not the 24 it is sized for
  (`DecorProperty.SlotKeptIff`). The layout comment at libdecoration/decoration.c:42-131 numbers the
  fields in another way than they are written; the model follows the code.
- The quads of a decoration can leave one column or row of the frame bare (`DecorBoxes.FrameCanBeBare`,
  `DecorBoxes.QuadsCoverFrame`).
- A match may change its meaning when it is printed and read (`Matches.TextChangesMeaning`,
  `MatchMeaning.MeaningKeptIff`), and it may become another tree that means the same: `MatchSyntax.Faithful`
  is exact for the tree, `MatchMeaning.Kept` for the meaning, where no value occurs twice. A match assigned
  to itself is emptied (`Matches.CompMatch.Assign`).
- An escaped operator at the beginning of an expression ends it, because the reader passes the first character
  before it looks for escapes (`MatchEscapes.EscapedReadIff`).
- A plugin requested twice is blacklisted although it runs (`PluginLists.DuplicateDropped`), and a second
  update stops it (`Plugins.PluginManager.UpdateAgain`).
- The client of a framed window is not told of a new size that a change of its border makes up for
  (`FrameGeometry.ClientCanMissWidth`, `FrameGeometry.ClientToldIff`).
- The comment above compareWindowActiveness promises zero for windows activated at the same time; a
  window on record compares as later than itself (`FocusHistory.History.CompareWindowActiveness`).

## Assumptions

- Ids and frames of different windows differ, and listed windows have ids other than 0 and 1, as the
  server guarantees (`Moving.NamesApart`, `WindowLists.IndexedBy`).
- serverId and id of a listed window are the same, so one field stands for both.
- `existsOnServer`, `focus`, what is pending at the server, and the success of grabs, loads and starts
  are inputs or not determined.
- A loaded plugin has the name that it was asked for by, and the list of plugins begins with core, as
  it does after start-up.
- Calls out of the modelled code (wrapped functions, notifications) do not come back into it, except
  for the release of a lock inside a dispatch, which is modelled.
- Integers are unbounded where the source cannot meaningfully overflow; flag words and layer masks are
  32-bit vectors, and division and remainder round towards zero as in the source.

## Model

| member | source | states |
|---|---|---|
| `TransientForest.IsAncestorToReaches` | src/window.cpp:95-111 | on acyclic links the climb ends, and finds an ancestor exactly when a chain of at least one link leads to it |
| `TransientForest.UpdateTransientHint` | src/window.cpp:321-345 | after any hint, the links of the same windows are still acyclic |
| `TransientForest.HintTakenIffNoCycle` | src/window.cpp:321-345 | the cycle check is exact: a hint to a listed window makes the link if and only if the link closes no cycle, and otherwise leaves none |
| `TransientForest.RunsAreCycleFree` | src/window.cpp:321-345 | over every run of creations, destructions (with ids that come back) and hints no window is its own transitive transient |
| `Restacking.IsAncestorTo` | src/window.cpp:95-111 | on the window records, with the map and the lookup cache, the recursive climb gives that answer and ends |
| `Raising.UpdateTransientHint` | src/window.cpp:321-345 | on the window records, the field set by the hint is the link that the transient forest allows, and nothing else of the scene changes; the lifecycle invariant is kept |
| `ModalTransients.SearchEnds` | src/window.cpp:2410-2433 | the walk that begins anew after each find ends; it climbs a chain of mapped modal transients to one that has no modal transient below the topmost window |
| `ModalTransients.SearchIff` | src/window.cpp:2410-2433 | what the walk finds is fixed by the scene: the one window without a modal transient among the windows looked at, from which the climb to the start passes only windows that are the topmost modal transient of their parent; the topmost window of all counts for the start only |
| `ModalTransients.ModalMissedIff` | src/window.cpp:2417-2430 | the dialog found has itself a modal transient if and only if the topmost window is one, its parent is not the start and has no other, and every window on the climb from that parent to the start is the topmost modal transient of its parent, the topmost window left out except at the start |
| `ModalTransients.ModalCanBeMissed` | src/window.cpp:2417-2430 | a scene with a dialog of a dialog on top where this happens |
| `ModalTransients.ModalFound` | src/window.cpp:2410-2462 | a result is another window, mapped and modal, at the end of a chain from the window or from a modal transient of its group that is no ancestor of it; the recursion ends |
| `ModalTransients.ModalTransientIff` | src/window.cpp:2410-2462 | exactly when a window has a modal dialog, and which it is: the end of the chain that begins with the window itself, or, where it has no modal transient and is not modal, of the one that begins with the topmost modal transient of its group; none only where there is neither |
| `ModalSearch.GetModalTransient` | src/window.cpp:2410-2462 | the two loops over the records compute that result |
| `InputFocus.EndsIff` | src/window.cpp:2464-2532 | the focus offered to a window comes to rest if and only if it is never handed to a trap: a resting modal dialog that does not take it, and that the search for the modal dialog of its lowest ancestor leads back to |
| `InputFocus.StaysIff` | src/window.cpp:2464-2532 | the focus stays exactly at a window without a modal dialog that is shaded, takes the focus from the manager or asks for it itself, or has no ancestor |
| `InputFocus.AlwaysEndsIff` | src/window.cpp:2464-2532 | it comes to rest whatever window it is offered to if and only if the scene has no trap |
| `InputFocus.TrapNeverEnds` | src/window.cpp:2464-2532 | from a trap it is handed on without end |
| `InputFocus.FocusCanGoInCircles` | src/window.cpp:2464-2532 | a scene with a window and its modal dialog, neither of which takes the focus, where it does not end |
| `InputFocus.NeverAnAncestor` | src/window.cpp:2438-2446 | the modal dialog found is never an ancestor of the window |
| `FocusMoves.FindAncestor` | src/window.cpp:2521-2530 | the loop up the list finds the lowest ancestor |
| `FocusMoves.MoveInputFocusTo` | src/window.cpp:2464-2532 | on the window records, for a focus that comes to rest (`InputFocus.EndsIff` says when): the recursion ends at the window where the walk does, and asks of the server what that window is to be given, at its frame when it is shaded |
| `ClientLeaders.LeaderFound` | src/window.cpp:410-427 | the climb ends; a leader found is that of an ancestor, and none is found only where no ancestor has one |
| `ClientLeaders.GetClientLeaderOfAncestor` | src/window.cpp:410-427 | the recursion on the records gives that leader |
| `WindowLists.WindowManager.FindWindow` | src/screen.cpp:2969-2985 | with map and one-entry cache in agreement with the list, the answer is that of a scan of the list, and the agreement is kept |
| `WindowLists.WindowManager.InsertWindow` | src/screen.cpp:3023-3082 | the window is put just above the window or frame named, at the bottom, or nowhere; prev and next spell out the list both ways, and the map holds exactly the listed windows |
| `WindowLists.WindowManager.UnhookWindow` | src/screen.cpp:3148-3190 | the window leaves list, links, map and cache; a window that is not listed changes nothing |
| `WindowLists.WindowManager.InsertServerWindow` | src/screen.cpp:3091-3145 | the same for the list last sent to the server, with serverPrev and serverNext |
| `WindowLists.WindowManager.UnhookServerWindow` | src/screen.cpp:3199-3225 | the window leaves the server list and its links |
| `WindowLists.WindowManager.CreateCompWindow` | src/window.cpp:6181-6260 | a new window enters each list just above the window named, at the bottom, or not at all when that window is not listed; all invariants of the lifecycle hold |
| `WindowLists.WindowManager.Destroy` | src/window.cpp:1291-1371 | in every state with the invariant, windows missing from either list included: the window leaves both lists at once and keeps its four links, which lead only to living windows or to windows destroyed later; the counter counts the windows that are fully destroyed and not deleted |
| `WindowLists.WindowManager.Delete` | src/window.cpp:6367-6420 | the links of the other destroyed windows are redirected past the deleted one, so none refers to a deleted window |
| `WindowLists.WindowManager.RemoveDestroyed` | src/screen.cpp:4776-4792 | ends, with none of the fully destroyed windows left and no other window touched |
| `WindowLists.WindowManager.FindTopLevelWindow` | src/screen.cpp:2987-3012 | a window is found by its id, through cache or map, or else by its frame on the server, and null only where the list has neither |
| `WindowLists.WindowManager.Restack` | src/window.cpp:1577-1618 | refused exactly for a request that is redundant or names no window; otherwise the window is taken out and put just above the one named in the window list, for an override-redirect window in the server list too; the lifecycle invariant is kept, and the window stays listed if and only if another listed window has the id or frame named, or none is named |
| `WindowLists.RestackCanLoseAWindow` | src/window.cpp:1577-1618 | an input where the sibling is named by its frame on the server, which is not yet its frame: the window restacked is lost from the list |
| `Minimize.MinimizeWindow` | src/window.cpp:4758-4786 | the minimized set becomes the old one plus the managed windows reachable through managed windows that were not minimized; ends on any relation, cycles included |
| `Minimize.UnminimizeWindow` | src/window.cpp:4788-4812 | the minimized set loses exactly what is reachable through minimized windows |
| `Minimize.UnminimizeUndoesMinimize` | src/window.cpp:4758-4812 | unminimize undoes minimize if and only if the window was not minimized and nothing minimized before goes along with it or with a window minimized with it |
| `GroupWalks.WalkEndsIff` | src/window.cpp:3508-3540 | with any groups: the walk over the transients of a window comes to its end if and only if the sibling neither is a transient of it at some depth nor goes along with it as a transient of its group, whether or not the sibling can itself be restacked |
| `GroupWalks.PlainWalkEndsIff` | src/window.cpp:3508-3540 | without group transients: if and only if the sibling is no transitive transient of the window |
| `RestackTheorems.RestackMovesBlock` | src/window.cpp:3508-3657 | without group transients, for a sibling that is none of its transients: sibling, reversed ancestors, the window and reversed transients form one block without repetition, each above all windows it is transient for at any depth, and all others keep their order |
| `RestackTheorems.RestackPermutes` | src/window.cpp:3618-3657 | without group transients: no window is lost and none is listed twice |
| `WalkOrder.CollectsOrdered` | src/window.cpp:3508-3540 | with any groups: a walk puts every window on its list after all windows that are transient for it at any depth, group transients included |
| `WalkOrder.AncestorsBefore` | src/window.cpp:3542-3602 | with any groups: in the list of the ancestors and main windows, what is transient for a window has occurred before it does |
| `GroupBlocks.GroupMovesBlock` | src/window.cpp:3508-3657 | with any groups that do not clash, for a sibling that does not go along: what moves forms one block just above the sibling, each window where its last move takes it and above all windows it is transient for at any depth; all others keep their order |
| `RestackOrder.TransientsMove` | src/window.cpp:3508-3540 | with any groups, for a sibling that does not go along: every window that can be restacked goes along if it is transient for the window at any depth, or for a group transient of its group or is one, whatever the other windows are |
| `RestackOrder.RestackKeepsShownBelow` | src/window.cpp:3508-3657 | with any groups that do not clash, above a sibling that is above every window it is transient for: every window that can be restacked stays above all such windows it is transient for at any depth, unless one is left behind above the sibling: an ancestor or main window at a desktop or dock where the climb stops, or whose own transients include the sibling |
| `RestackOrder.RestackKeepsShownIff` | src/window.cpp:3508-3657 | for a window that can be restacked this condition is exact, but for a sibling that goes along, where nothing moves |
| `RestackOrder.AlongKeepsOrder` | src/window.cpp:3508-3540 | with any groups that do not clash: what goes along keeps the order of the windows through which it does |
| `RestackOrder.MainsKeepOrder` | src/window.cpp:3574-3602 | and the main windows put below a group transient keep theirs |
| `RestackGroups.MovedAreMapped` | src/window.cpp:3531-3533 | besides the window itself only windows move that are mapped or about to be, and known to the server |
| `RestackOrder.DialogCanGetBelowDock` | src/window.cpp:3562-3570 | a scene in which a dialog ends up below the dock it is transient for |
| `GroupClashes.BlockOnce` | src/window.cpp:3542-3602 | with any groups: the walks collect a window twice in a row if and only if two successive main windows of the group clash: the upper one is not put on the list, and the last transient collected for it is the first one collected for the lower |
| `RestackGroups.RestackKeepsAllIff` | src/window.cpp:3542-3657 | with any groups, for a sibling that does not go along: a restack keeps every window, and none twice, if and only if no two main windows clash |
| `RestackGroups.RestackKeepsAll` | src/window.cpp:3542-3657 | so it keeps all where every main window of the group can be restacked and none is a desktop window |
| `RestackGroups.GroupsCanLoseWindows` | src/window.cpp:3574-3598 | a group with an unmapped main window above a mapped one where the shared dialog is put above itself and drops out of the list |
| `Restacking.StackTransients` | src/window.cpp:3508-3540 | the recursive walk down serverPrev collects the list that the theorems speak of, with the same failures |
| `Restacking.StackAncestors` | src/window.cpp:3542-3602 | the same for the ancestors and the main windows of a group |
| `Moving.MoveAbove` | src/window.cpp:3226-3231 | unhook and insert by id or frame put the window just above the one named, drop it when that one is not listed, and keep the links of the list |
| `Moving.ReconfigureStack` | src/window.cpp:3186-3240 | a request for the place where the window already is leaves the list as it is, whether it is dropped as redundant or carried out |
| `Moving.RestackRelatives` | src/window.cpp:3618-3657 | the walks and the replayed moves on the window records give the list of the theorems, also where windows get lost |
| `Docking.StackDocks` | src/window.cpp:3431-3505 | the loops over the records find the topmost window in use above a fullscreen one, and the docks from the top down; the look below the fullscreen window never finds any |
| `Docking.UpdateDocks` | src/window.cpp:3659-3672 | the docks are put one by one above that window |
| `Docking.RestackAndConfigureXWindow` | src/window.cpp:3618-3680 | the whole request, docks included, gives the list of the theorems for managed and other windows; the records stay in order and the lifecycle invariant is kept on every input, those that lose windows included |
| `Docks.DocksBlock` | src/window.cpp:3431-3505 | the docks form one block above the topmost window in use above a fullscreen one, in their old order, and all others keep their order |
| `Docks.CarrierIff` | src/window.cpp:3446-3462 | exactly which window the docks go above: the topmost above a fullscreen one that is managed, not about to be unmanaged, not hidden, not override-redirect, viewable, on the server, neither fullscreen nor dock, and no ancestor of the window restacked |
| `Docks.RestackedKeepsAllIff` | src/window.cpp:3618-3680 | the docks make no difference to that: the whole request keeps every window if and only if no two main windows clash |
| `DockOrder.DocksAbove` | src/window.cpp:3431-3505 | afterwards every dock is above every window in use that is above a fullscreen one |
| `DockOrder.DocksKeepShownIff` | src/window.cpp:3431-3505 | windows stay above those they are transient for if and only if nothing that a dock is transient for is above the place where the docks go, and no transient of a dock is at it or below |
| `DockOrder.DocksApartKeepShown` | src/window.cpp:3431-3505 | where docks and other windows are not transient for each other, or there is no fullscreen window, moving the docks leaves windows above those they are transient for if and only if they were before |
| `DockOrder.DocksCanStayAbove` | src/window.cpp:3467-3490 | a scene with a window in use below the fullscreen one, where the docks stay above |
| `LayerOrder.RecalcType` | src/window.cpp:823-846 | exactly when each type results: fullscreen overrules, a dock that is to be kept below is none, normal windows with a parent are dialogs, modal ones modal dialogs; the others keep their type |
| `LayerOrder.FindSiblingBelow` | src/window.cpp:2699-2798 | whether or not the window may go above fullscreen ones, the window found is the topmost at which the search stops, and nothing is found only where it stops nowhere |
| `LayerOrder.StopsByLayer` | src/window.cpp:2654-2798 | in a plain stack the search stops at no window of a higher layer and passes over none of a lower one |
| `LayerOrder.StopsByLayerIff` | src/window.cpp:2654-2798 | and it stops at every window of its own layer and of those below, but for docks to be kept above |
| `LayerOrder.RaiseKeepsLayers` | src/window.cpp:4190-4284 | raising a window of a plain stack, listed or not, keeps desktop, below, normal, above and dock in this order; known windows may be missing from the list |
| `StackDebugger.CheckSanity` | src/stackdebugger.cpp:327-452 | the walk with masks that lose bits finds a fault exactly when a window claims a higher layer than the walk has come to |
| `StackDebugger.ClaimByMask` | src/stackdebugger.cpp:356-447 | the tests on the mask choose the layer that follows from the number of the layer reached |
| `StackDebugger.SaneIffOrdered` | src/stackdebugger.cpp:327-452 | for a plain stack, whatever known windows are missing from it, the debugger reports no error if and only if the layers are in order |
| `RaiseTheorems.RaiseKeepsAllIff` | src/window.cpp:4190-4284 | with any groups, fullscreen windows and docks: a raise keeps every window, and none twice, if and only if it leaves the stack as it is or no two main windows clash |
| `RaiseGroups.StackTypeIff` | src/window.cpp:2707-2731 | exactly in which layer a window is stacked: with the docks where it is one or is transient for one at any depth, with fullscreen windows where it is one that is not to be kept below |
| `RaiseGroups.StopsIff` | src/window.cpp:2654-2798 | exactly where the search stops for a window stacked neither with fullscreen windows nor docks nor the desktop: at desktop windows on show, and at windows on show and on the server, none of which is a dock or a fullscreen window that bars or for one, that it is transient for, or that are neither its own transients nor its group's and may be below it by the above and below states |
| `RaiseGroups.StopsAmongFullIff` | src/window.cpp:2750-2765 | exactly where it stops for one stacked with docks or fullscreen windows: at windows of all other layers, and among those two by relation and states, but at all of them for an active fullscreen window |
| `RaiseGroups.StopsAtDesktopIff` | src/window.cpp:2740-2749 | and for one stacked with the desktop: at desktop windows on show only |
| `RaiseGroups.PlaceGoesAlongIff` | src/window.cpp:2654-2798 | for a window stacked neither with fullscreen windows nor with docks: the search never stops at one of its group transients, and what it stops at goes along if and only if it is transient for one of them, or a desktop window under it |
| `RaiseGroups.RaisedAboveIff` | src/window.cpp:4190-4284 | such a window, managed and where nothing clashes, gets above the window found if and only if it was above it before or that one does not go along |
| `RaiseGroups.StaysAboveFullscreen` | src/window.cpp:4257-4272 | an active window that stands just above a fullscreen one, and is not to be kept below others, stays above it when it is raised |
| `RaiseGroups.MainCanStayBelow` | src/window.cpp:2666-2668 | a scene with a foreign window, a toolbar and its dialog above a main window, which stays where it is when it is raised |
| `RaiseTheorems.RaiseKeepsShownBelow` | src/window.cpp:4257-4284 | with any groups that do not clash: a raise of a managed window leaves every window that can be restacked above all such windows it is transient for at any depth, where nothing moves, or the window found has none of its own such ancestors above it and no window is left behind above it, or nothing is found and there is no such ancestor; if there is a fullscreen window, docks must be unrelated to other windows |
| `RaiseTheorems.RaiseKeepsShownIff` | src/window.cpp:4190-4284 | for a window that can be restacked, managed or not, this condition on the place found is exact |
| `RaiseTheorems.AncestorStops` | src/window.cpp:2654-2798 | the search does stop at an ancestor that is not passed over and is on the server, unless the window is stacked with the desktop or a fullscreen window bars it |
| `RaiseTheorems.RaisedToTop` | src/window.cpp:4190-4284 | a raised window of a plain stack ends above every window of its own layer and of those below, but for docks to be kept above |
| `RaiseTheorems.RunsKeepLayers` | src/window.cpp:4257-4284 | so the layers of a plain stack, with known windows missing or not, are in order after every run of raises |
| `RaiseTheorems.RunsKeepShownBelow` | src/window.cpp:4257-4284 | with any groups: no run of raises of managed windows loses a window, or puts one that can be restacked below one it is transient for, whose search stops only at windows that can be restacked, at each such window that may be left behind, and somewhere if there is any such ancestor, and whose group, where the climb ends at a group transient, has only main windows that can be restacked and no desktop; dialogs of fullscreen windows are among them |
| `FullscreenTop.RaisedOnTopIff` | src/window.cpp:4257-4284 | with any groups that do not clash: a raised active fullscreen window is above every window on show but what goes along with it and the docks if and only if it was so before or the topmost window on show does not go along with it; no window is lost |
| `FullscreenTop.RaiseStuck` | src/window.cpp:2751-2753 | where the search finds a window that goes along with a managed one, the raise changes nothing |
| `FullscreenTop.FullscreenCanStayBelow` | src/window.cpp:2751-2753 | a scene with a rival and a dialog above an active fullscreen window, which stays below the rival when it is raised |
| `Raising.StackLayerCheck` | src/window.cpp:2654-2682 | the check on the records, with both climbs, is the one the theorems use |
| `Raising.StackType` | src/window.cpp:2707-2731 | the loop up the ancestors gives the layer a window is stacked in |
| `Raising.FindSiblingBelow` | src/window.cpp:2699-2798 | the walk on the records finds the window that the theorems speak of |
| `Raising.MayGoAboveFs` | src/window.cpp:4257-4272 | the loop down from the window lets it go above fullscreen windows only when it is active and is one or stands just above one |
| `Raising.Raise` | src/window.cpp:4190-4284 | the request as carried out on the records leaves the list of the theorems; the records stay in order, so raises can follow one another, and the lifecycle invariant is kept on every input, those that lose windows included |
| `BufferProofs.DispatchCounts` | src/configurerequestbuffer.cpp:84-151 | a dispatch adds as many to the count as it arms; when it sends or is forced nothing is pending and every live lock is armed |
| `BufferProofs.ReleaseCounts` | src/configurerequestbuffer.cpp:153-169 | inside the dispatch of a release the count is exactly one less than the armed locks, and right again when it returns; only the lock released stays disarmed |
| `BufferProofs.RunsAreQuiescent` | src/configurerequestbuffer.cpp:84-169 | in every run the count is that of the armed locks, and whatever is pending implies a lock is held |
| `BufferProofs.OnlyDeferrableWaits` | src/configurerequestbuffer.cpp:84-102 | in every run nothing is ever pending between calls but moves of the frame and the stacking of wrapper and client |
| `BufferProofs.KeptBackIff` | src/configurerequestbuffer.cpp:84-151 | exactly when a request is kept back: a lock is held and the request asks for nothing but that, or it is empty and nothing is pending; otherwise it is sent at once with all that is pending |
| `BufferProofs.ForceSendsAll` | src/configurerequestbuffer.cpp:275-306 | a forced query leaves nothing pending |
| `BufferProofs.NothingLost` | src/configurerequestbuffer.cpp:173-236 | under every schedule, what was sent and then what is pending give each field of each target the value last asked for |
| `BufferProofs.ServerUpToDate` | src/configurerequestbuffer.cpp:84-306 | without a lock, or after a query, the server has the last value of every field |
| `BufferProofs.SyntheticComesLast` | src/configurerequestbuffer.cpp:84-151 | a synthetic notification is sent after every request made before it |
| `BufferProofs.PushInOrder` | src/configurerequestbuffer.cpp:112-131 | requests made to the frame, the wrapper and the client in this order are sent in this order, however many of them a lock keeps back |
| `ConfigureBuffer.ConfigureRequestBuffer.DispatchConfigure` | src/configurerequestbuffer.cpp:84-137 | the method on fields, lock objects and masks is the step of the machine |
| `ConfigureBuffer.ConfigureRequestBuffer.Rearm` | src/configurerequestbuffer.cpp:139-151 | the loop over the locks arms every live one and counts those that were not |
| `ConfigureBuffer.ConfigureBufferLock.Lock` | src/configurerequestbuffer.cpp:349-356 | a lock freezes the buffer once, however often it is taken |
| `ConfigureBuffer.ConfigureBufferLock.Release` | src/configurerequestbuffer.cpp:358-365 | a release that re-enters the buffer through its dispatch is the step of the machine, and its counter never falls below zero |
| `ConfigureBuffer.ConfigureRequestBuffer.Release` | src/configurerequestbuffer.cpp:161-169 | the buffer is one lock freer and dispatched |
| `ConfigureBuffer.ConfigureRequestBuffer.ObtainLock` | src/configurerequestbuffer.cpp:238-247 | a new lock, armed and counted |
| `ConfigureBuffer.ConfigureRequestBuffer.PushClientRequest` | src/configurerequestbuffer.cpp:200-208 | a request for the client is merged and, where needed, dispatched; the invariant is kept |
| `ConfigureBuffer.ConfigureRequestBuffer.PushWrapperRequest` | src/configurerequestbuffer.cpp:210-218 | the same for the wrapper |
| `ConfigureBuffer.ConfigureRequestBuffer.PushFrameRequest` | src/configurerequestbuffer.cpp:220-228 | the same for the frame |
| `ConfigureBuffer.ConfigureRequestBuffer.PushSyntheticConfigureNotify` | src/configurerequestbuffer.cpp:230-236 | the same for the synthetic notification |
| `ConfigureBuffer.ConfigureRequestBuffer.ForceRelease` | src/configurerequestbuffer.cpp:275-306 | everything pending is sent |
| `BufferModel.Apply` | src/configurerequestbuffer.cpp:173-198 | exactly the fields of the mask are taken over |
| `FrameGeometry.ReconfigureFits` | src/window.cpp:3131-3341 | after every request the cached frame geometry is the window grown by border and input extents, the title only while shaded |
| `FrameGeometry.RunsAgree` | src/window.cpp:3097-3117 | under any schedule of requests, extents, shading, locks and queries, the server has the cached frame geometry in each of x, y, width and height that is not pending |
| `FrameGeometry.RunsInPlace` | src/window.cpp:3343-3429 | under any schedule the places last asked for of the frame and of the wrapper in it have the client inside its border where the window is |
| `FrameGeometry.UnframedToldIff` | src/window.cpp:3343-3429 | of a window without a frame just the fields that a request changes are sent to the client, the border only where it does not only take input, and nothing to frame or wrapper |
| `FrameGeometry.ClientToldIff` | src/window.cpp:3343-3429 | the client is told of a new size exactly when the size with both borders changes, and of a new height while shaded only when the border does |
| `FrameGeometry.ExtentsToldIff` | src/window.cpp:3343-3429 | with new extents the client is told of its width when that changes with its borders or the extents change in width, and likewise of its height |
| `FrameGeometry.SentFromTheFrameIn` | src/window.cpp:3343-3429 | with nothing pending before, what one request sends goes to the frame first, then to the wrapper, then to the client |
| `FrameGeometry.ClientCanMissWidth` | src/window.cpp:3113-3240 | an input: a border and a smaller width that make up for each other, of which the client is not told |
| `FrameGeometry.ClientToldValues` | src/window.cpp:3343-3429 | what it is told, now or when the buffer lets go, is the size requested |
| `FrameGeometry.ClientStaysUpToDate` | src/window.cpp:3343-3429 | so a client that is up to date stays so while border and shading stay |
| `PrivateWindow.PrivateWindow.ReconfigureXWindow` | src/window.cpp:3131-3429 | the steps on the masks and the fields, and the requests to the buffer object, do what the lemmas speak of |
| `RestackGeometry.GeometryAsRequestedIff` | src/window.cpp:3641-3657 | a request with geometry and stacking gives the window the geometry asked for if and only if no ancestor goes along or the nearest one leaves the same values in the fields asked for |
| `RestackGeometry.SettledLeavesGeometry` | src/window.cpp:3143-3151 | an ancestor whose frame fits leaves its own geometry in the request |
| `RestackGeometry.UnsettledLeavesInset` | src/window.cpp:3343-3429 | one in a frame whose size does not fit it yet leaves the place of its wrapper inside the frame |
| `RestackGeometry.DialogGetsGeometryOfParent` | src/window.cpp:3641-3657 | an input where a dialog ends up with the geometry of its parent |
| `PrivateWindow.RestackAlong` | src/window.cpp:3641-3657 | one request shared by the ancestors, from the last to the first, and then the window itself: each ends in its state of the theorems, and no other of the windows changes with it; the ancestors keep their geometry (`RestackGeometry.AncestorsKeepGeometry`) |
| `PrivateWindow.PrivateWindow.UpdateGeometry` | src/window.cpp:3143-3223 | the mask without its redundant bits names just the fields that change, and these are set |
| `PrivateWindow.PrivateWindow.UpdateFrameGeometry` | src/window.cpp:3243-3335 | the frame mask names just the fields in which the frame does not fit the window yet, and these are set |
| `PrivateWindow.PrivateWindow.SetWindowFrameExtents` | src/window.cpp:6782-6888 | new extents, with the request computed step by step from gravity, states and work area, are one action of the runs; equal ones and those of override-redirect windows change nothing |
| `FrameExtents.GravityPointStays` | src/window.cpp:6806-6829 | over every run of new extents after the first, the edge of the frame that the gravity points to stays where it is, or the window itself for a gravity that points to none, so the window is back in its place with the same borders |
| `FrameExtents.SizeStays` | src/window.cpp:6812-6831 | over such a run the window keeps its size, or, while it fills the screen, window and borders together do, unless a frame leaves it no width or height |
| `FrameExtents.FirstFrameInsideIff` | src/window.cpp:6833-6872 | for every gravity, exactly when a window inside the work area gets a first frame that is inside it |
| `FrameExtents.FirstFrameFits` | src/window.cpp:6862-6869 | with its first frame a window that can be resized is no larger than the work area; one that is small enough, or cannot be resized, keeps its size |
| `FrameExtents.FirstFrameCanLeaveWorkarea` | src/window.cpp:6833-6872 | a window that is shrunk to have room for its frame and yet is put past the end of the work area |
| `PrivateWindow.PrivateWindow.ObtainLockOnConfigureRequests` | src/window.cpp:5910-5914 | a lock taken is one action of the runs |
| `PrivateWindow.PrivateWindow.QueryAttributes` | src/window.cpp:3057-3067 | a query is one action of the runs: what is pending reaches the frame first |
| `MatchReader.MatchAddFromString` | src/match.cpp:300-397 | the reader with its indices reads the tree that the grammar functions give, nested groups and unended ones included |
| `MatchReader.GroupEnd` | src/match.cpp:334-351 | the loop that counts parentheses stops at the one that closes the group, or at the end |
| `MatchReader.NextIndex` | src/match.cpp:246-255 | the index past all escape sequences |
| `MatchReader.StrndupValue` | src/match.cpp:257-298 | the value without trailing blanks that are not escaped and without backslashes |
| `MatchEval.MatchOpsToString` | src/match.cpp:399-442 | the growing string, its last blank cut off, is the printed form; groups without text are left out |
| `MatchEval.MatchOpsEqual` | src/match.cpp:199-244 | true exactly for equal trees |
| `MatchEval.MatchEvalOps` | src/match.cpp:465-515 | the loop with early returns gives the reading a1 o (a2 o (a3 ...)) with all operators binding alike to the right, at every depth |
| `MatchProofs.ReadText` | src/match.cpp:300-442 | reading the printed form of any tree with plain values gives its normal form: flags carried across |, empty groups gone |
| `MatchProofs.RoundTrip` | src/match.cpp:300-442 | the tree comes back if and only if its flags and groups are as the reader would set them |
| `MatchProofs.ReadBackOnce` | src/match.cpp:300-442 | what has come back once comes back unchanged from then on |
| `MatchEscapes.EscapedReadIff` | src/match.cpp:246-395 | a value with every special character escaped is read back as it is if and only if it does not begin with an operator, or with backslashes and then an operator |
| `MatchEscapes.EscapeCanBeIgnored` | src/match.cpp:369-374 | an input where the escape at the beginning of an expression is not heeded |
| `MatchEscapes.BlanksReadNothing` | src/match.cpp:366-395 | a text of nothing but blanks is read as no operation at all |
| `Matches.TextChangesMeaning` | src/match.cpp:300-442 | a tree whose printed form means something else: an "or" after an "and" is read as an "and" |
| `MatchMeaning.KeptMeaning` | src/match.cpp:300-515 | a tree says the same after it has been printed and read when what is not printed is neutral in its place and the flags that count are those the reader gives |
| `MatchMeaning.MeaningKeptIff` | src/match.cpp:300-515 | for trees whose values are all different this is exact: the meaning is kept if and only if the tree is of this kind |
| `Matches.CompMatch.And` | src/match.cpp:652-666 | &= says yes exactly where both operands did, also when they are the same object |
| `Matches.CompMatch.Or` | src/match.cpp:668-680 | |= says yes exactly where one of them did |
| `Matches.CompMatch.Not` | src/match.cpp:694-705 | ! says yes exactly where the match said no |
| `Matches.CompMatch.Assign` | src/match.cpp:557-586 | the operations are copied; a match assigned to itself is emptied |
| `Matches.CompMatch.AndString` | src/match.cpp:717-723 | the same for a text that is read first |
| `Matches.CompMatch.OrString` | src/match.cpp:725-731 | the same for a text that is read first |
| `Plugins.PluginManager.MergedPluginList` | src/screen.cpp:1009-1057 | the list asked for: core, initial plugins, others, nothing blacklisted |
| `Plugins.PluginManager.Push` | src/plugin.cpp:473-508 | a plugin is started unless one of its name is running; stack and map agree, also after a start that fails |
| `Plugins.PluginManager.Pop` | src/plugin.cpp:510-531 | the last one started is stopped; stack and map agree |
| `Plugins.PluginManager.UpdatePlugins` | src/screen.cpp:1060-1153 | whatever fails: stack, map and list agree, core first, no name twice; the list is the list asked for without its failed entries, and just these are blacklisted; only the stack is loaded; without duplicate requests no plugin that ran is loaded anew |
| `Plugins.PluginManager.UpdateAgain` | src/screen.cpp:1060-1153 | a second update, for the same plugins or fed with its own output, changes nothing if and only if the first has placed no plugin that is asked for twice |
| `PluginLists.MergedAgain` | src/screen.cpp:1009-1057 | where no repeated name has been placed, what was placed is what is asked for the next time |
| `PluginLists.RepeatedDropped` | src/screen.cpp:1009-1153 | where one has been placed, it is listed now and not asked for the next time |
| `PluginLists.DuplicateDropped` | src/screen.cpp:1009-1153 | a plugin asked for twice is blacklisted even where it runs, and is not asked for the next time |
| `Grabs.EventManager.PushGrabGeneric` | src/screen.cpp:3249-3341 | whatever the server refuses, the pointer is grabbed exactly when a listed grab wants it, and so is the keyboard; a refused request leaves no trace |
| `Grabs.EventManager.RemoveGrab` | src/screen.cpp:3376-3433 | the same after a grab is given up |
| `Grabs.EventManager.TopGrab` | src/privatescreen.h:272 | the grab found is the oldest that wants something of the kind |
| `FocusHistory.RecentOrder` | src/screen.cpp:4518-4537 | in the list of distinct windows the one focused later comes first |
| `FocusHistory.History.AddToCurrentActiveWindowHistory` | src/screen.cpp:4518-4537 | after any focus events the array holds the first 64 of that list, padded with zeros |
| `FocusHistory.History.CompareWindowActiveness` | src/window.cpp:5313-5333 | whenever one of two windows is on record the answer is that of their last focus; otherwise the activation numbers decide |
| `ViewportMath.WraparoundModIsEuclidean` | src/privatescreen.h:98-104 | for a positive modulus the wrap-around is the remainder that is never negative |
| `ViewportMath.MovementCongruent` | src/window.cpp:5347-5391 | a window moves by the offset up to whole walls |
| `ViewportMath.MovementOnWallIff` | src/window.cpp:5347-5391 | a window that is on the wall, as far as any viewport can come next, stays on it if and only if, where the offset takes it past an end, it takes it right past the current viewport |
| `Viewports.FollowedOnTheWall` | src/window.cpp:5347-5391 | so every window that is on the wall, and along an axis of several screens no larger than all but one of them, stays on it wherever the viewport moves to |
| `Viewports.Screen.MoveViewport` | src/screen.cpp:4091-4128 | the viewport wraps around within the wall, and every window that moves along moves as the lemmas say |
| `Viewports.FollowedConserved` | src/screen.cpp:4091-4128 | x + vp.x * width is conserved modulo the wall for each window, likewise y; saved geometry moves by as much, and by whole screens |
| `Viewports.Screen.SetVirtualScreenSize` | src/screen.cpp:2172-2249 | the viewport ends inside the new size and every window where the lemmas say |
| `Viewports.ResizedInside` | src/screen.cpp:2172-2249 | on a wall that got smaller every window that moves along is on a viewport that stays, moved by whole screens only |
| `ViewportMath.RehomedInside` | src/screen.cpp:2200-2234 | the index computed with rounding towards zero is right for every window of a current viewport; only windows outside move, to the last viewport that stays |
| `DecorData.AllocProperty` | libdecoration/decoration.c:133-155 | a zeroed property of n slots with its header |
| `DecorData.QuadsToProperty` | libdecoration/decoration.c:157-230 | the words from the slot on are those of the decoration, all others are as they were |
| `DecorData.PixmapPropertyToQuads` | libdecoration/decoration.c:281-370 | nothing for a property that is too short, of another version or type; otherwise the decoration the words stand for |
| `DecorProperty.QuadRoundTrip` | libdecoration/decoration.c:209-226 | a quad is read back if and only if its gravities fit 4 bits, align, clamp and stretch 2 bits, its matrix entries are 0 or 1 and its offsets whole |
| `DecorProperty.PropertyRoundTrip` | libdecoration/decoration.c:157-370 | a decoration is read back from its slot if and only if all its quads can be stored so |
| `DecorProperty.SlotKeptIff` | libdecoration/decoration.c:175-226 | no other slot changes if and only if there are fewer than 24 quads: 23 words go before the quads where 22 are reserved |
| `DecorQuads.WindowStorable` | libdecoration/decoration.c:713-1248 | for every context and layout the generators give twelve quads that can be stored |
| `DecorQuads.GeneratedRoundTrip` | libdecoration/decoration.c:157-1248 | so what they generate is read back unchanged and damages no other slot |
| `DecorBoxes.QuadsCoverFrame` | libdecoration/decoration.c:669-1248 | placed by gravity on a window of any size and cut off where they may not be larger, the twelve quads cover the frame between the extents, no point twice and nothing else, except one column or row exactly where a middle stretch has corners that differ by an odd number, the first one larger, and are as long together as the window |
| `DecorBoxes.FrameCanBeBare` | libdecoration/decoration.c:834-910 | an input where a column of the frame is left bare |

## Left out

- Restacking on FocusIn, and the requests of clients to be stacked, which use the same search and restack.
- FocusMoves.MoveInputFocusTo: gives what is asked of the server as a value, without the timestamp.
- LayerOrder.RaiseKeepsLayers: is claimed for stacks without fullscreen windows and transients; what holds
  for an active fullscreen window is FullscreenTop.RaisedOnTopIff, for transients and groups
  RaiseTheorems.RaiseKeepsShownBelow and RaiseGroups.RaisedAboveIff.
- lower and findLowestSiblingBelow: the search for the lowest sibling starts from the topmost window and
  also takes windows that may not be siblings, so no order can be claimed for it.
- Moving.ReconfigureStack: does not decide which redundant requests are dropped, because that depends on
  what the server has not yet confirmed; both choices are covered.
- Raising.Raise: takes from its caller whether the window is the active one and whether a restack is pending.
  As for every walk over the server list, each window of that list must be one that can be found by its
  id; the lifecycle of the windows does not require that.
- RestackOrder.RestackKeepsShownIff: is stated where no main windows clash, and for windows that can be
  restacked; RestackOrder.RestackKeepsShownBelow is the part that holds for all. Where they clash, windows
  get lost (RestackGroups.RestackKeepsAllIff).
- RaiseTheorems.RaiseKeepsShownIff: is stated likewise, above a window found that is itself above all it is
  transient for; RaiseTheorems.RaiseKeepsShownBelow holds for every managed window.
- PrivateWindow.RestackAlong: takes the ancestors, and what is left of the stacking bits for each, from its
  caller; Moving.RestackRelatives is the other half of the same calls, with the lists but without the geometry.
- RestackGeometry.GeometryAsRequestedIff: is about one window and its ancestors; the transients and docks that
  follow are asked for no geometry.
- MatchMeaning.MeaningKeptIff: with values that occur twice the condition is sufficient only, since then two
  trees of any shape may mean the same.
- WindowLists.WindowManager.Destroy: does not model the separate management of the frame window, icons,
  focus and shared resources, which the lists do not depend on.
- Minimize.MinimizeWindow: does not model hiding and showing, which read no state of other windows.
- RestackTheorems.RestackMovesBlock: is stated without group transients, and says that nothing moves twice; what
  holds with them is GroupBlocks.GroupMovesBlock.
- PrivateWindow.PrivateWindow.SetWindowFrameExtents: does not model the notifications and the property that
  follow; gravity, states and work area come from its caller.
- FrameExtents.FirstFrameInsideIff: is stated for windows that do not fill the screen.
- ConfigureBuffer: untrackLock is left out; its only effect would be on a list whose dead entries the
  buffer already skips. Dead locks stay on the list as such.
- MatchProofs.RoundTrip: is stated for values without backslashes, parentheses, operators and outer
  blanks; the printer writes no escapes; what the reader makes of them is MatchEscapes.EscapedReadIff.
- Matches.CompMatch: the deep copies of trees are copies of values, so aliasing between trees is not
  captured; the operators & and | on a match, which return references to temporaries, are left out.
- Plugins.PluginManager.UpdatePlugins: does not model dirtyPluginList and the option that is set at the end.
- Grabs.EventManager.PushGrabGeneric: does not say which cursor is shown.
- FocusHistory.History.CompareWindowActiveness: takes activation numbers that have not wrapped around.
- One history of focus events is modelled, not the choice among the 32 of them.
- Viewports.Screen.MoveViewport: does not model the desktop hints and the focus that follow the move.
- DecorData.PixmapPropertyToQuads: leaves it to the caller that the property is long enough, because the
  check in the source computes with a sum where the writer has a product.
- decor_gen_window_property and decor_window_property: 13 fields are written into slots of 12 words, so
  there is no round trip to state.
- DecorBoxes.QuadsCoverFrame: is about where quads lie; their matrices, which say what is drawn there, are not
  part of it, nor are windows of more than 32767 pixels.
- DecorQuads.WindowStorable: the generators are functions that give the quads, not writes through a pointer.
- Shadow rendering, layouts, options, passive grabs, output devices and work areas: they add only easy
  members or are input and output.
