# Verification of the canvas compositor

A model in Dafny 4.11 of the bookkeeping that this compositor does in place, and proofs about it.
`dafny verify dfyconfig.toml` checks everything.

## What is modelled

The desktop. `desktop_state.dfy` has the fields of windows, workspaces and monitors that matter here.
`fullscreen.dfy`, `window_moves.dfy`, `workspaces.dfy` and `workspace_swap.dfy` specify fullscreen
requests with their recursive eviction, moves of windows between workspaces, moves of workspaces between
monitors with the search that plugs the gap, and the swap of two monitors' workspaces, as functions on a
desktop. `desktop_runs.dfy` puts them together: two invariants (who is fullscreen, and who is where) and
the exact operations that break them, over every run; `pinned_windows.dfy` and `pinned_runs.dfy` say when
pinned windows stay on their workspace's monitor, and in sight. `compositor.dfy` has the operations as methods
that update the tables in place, each proved to do what its function says. `stacking.dfy` with
`transients.dfy`, `window_cycle.dfy`, `focus_history.dfy`, `focus_direction.dfy`, `monitor_ids.dfy` and
`arrange.dfy` with `arrange_apart.dfy` are the smaller machines of the compositor: the stack of windows with X11
transients, cycling, the focus history and what reads it, the ids of monitors, and their placement with what
overlaps.

The canvas. `annotation.dfy` has the annotations and the nearest-item searches, with squared distances so that no
root is taken. `canvas_doc.dfy`, `undo_redo.dfy` and `undo_history.dfy` specify the annotation lists, the commands
and the two bounded stacks, and say how far undo and redo bring a canvas back. `draw_mode.dfy` specifies the tools
and `draw_gesture.dfy` whole gestures with them. `canvas_objects.dfy` has the store, the stacks and the tool as
objects. `tile_layout.dfy`, `frames.dfy`, `tab_effects.dfy`, `frame_drags.dfy`, `frame_objects.dfy` and
`frame_list.dfy` are the frames, their tabs and tiles; `viewport.dfy` and `minimap.dfy` the maps between canvas,
screen and minimap.

The tools. `digits.dfy` and `signal_safe.dfy` are the writers for signal handlers, `popups.dfy` the popup tree, and
`batch.dfy` the splitter of batched control requests.

`common.dfy`, `ids.dfy` and `lists.dfy` hold what the others share.

## How to read it

A specification is a function from state to state. What the program promises is proved about these functions as
lemmas, over every run where it is an invariant. The methods of the classes follow the program's statements and
are proved to have the specified result, so the lemmas are about them too. A row below that says "as specified"
is this link.

A window, workspace or monitor is named by an id where the program holds a pointer. Coordinates are real numbers.

## What the proofs found

- While the compositor is in its unsafe state, moving a fullscreen window to another workspace leaves the old
  workspace with the mode of a window it no longer has (`WindowMoves.UnsafeMoveBreaksInv`).
- A swap leaves a pinned window's monitor alone; a fullscreen request that later unpins the window strands it on a
  monitor that its workspace is not on (`DesktopRuns.SwapThenRequestStrands`); `PinnedRuns.StepKeepsHomeExactly` has
  all operations that prepare this.
- A monitor placed to the side of a centred one can share half a pixel with it, because bounds are cut to whole
  pixels (`ArrangeApart.CentredThenRightOverlaps`); `ArrangeApart.AutoOverlaps` says exactly when.
- An X11 window is raised with its transients only when their parents run into a cycle, because the search for the
  window that another one is transient for walks on to the end (`Transients.MovesOthers`).
- A workspace that is moved to another monitor and shown there at once hides the pinned windows of the workspace that
  gives way (`PinnedWindows.MoveKeepsPinsExactly`).
- A command that re-adds an annotation never learns its new id: a redone erase does nothing, and an undo after a
  redone drawing does nothing (`UndoHistory.UndoThenRedo`, `UndoHistory.RedoThenUndo`, `UndoHistory.StaleUndo`).
- A window that a frame resizes at the end of a move gets its position back by undo, and not its size
  (`UndoHistory.DragUndoRestores`).
- Changing the tool while the button is down draws an arrow from an old start, or an old stroke again
  (`DrawGesture.BrushEndsAsArrow`, `DrawGesture.StrokeDrawnAgain`); `DrawGesture.GestureDrawsItself` says exactly when
  a gesture draws itself.
- A frame that is dragged sideways, or too far down, leaves the windows of its other tabs at their old parking place
  until their tab is shown (`FrameDrags.DragExactly`).
- `writeNum` drops trailing zeros and prints nothing for 0 (`Digits.PrintedExactly`).
- A batch whose brackets do not balance loses its last part without an error (`Batch.PiecesRejoin`).

## Model

| member | source | states |
|---|---|---|
| `Fullscreen.SetState` | src/Compositor.cpp:2349-2438 | a request changes only the fullscreen fields of windows and the two flags of workspaces, and its recursion into the eviction ends after one level |
| `Fullscreen.RequestKeepsInv` | src/Compositor.cpp:2349-2438 | every request, whatever the modes, keeps: at most one fullscreen window per workspace, `m_hasFullscreenWindow` true exactly when there is one, `m_fullscreenMode` its highest set bit, no fullscreen window pinned or unmapped |
| `Fullscreen.RequestMode` | src/Compositor.cpp:2354-2396 | what the request leaves in its own window: the clamped mode unless the window stays pinned, the clamped client mode unless the window syncs and its mode does not change, and exactly when it is pinned, unpinned for fullscreen, or pinned again |
| `Fullscreen.RequestOthers` | src/Compositor.cpp:2370-2415 | what the request leaves elsewhere: no other fullscreen window on the workspace, flags that describe the window, other workspaces and their windows untouched |
| `Fullscreen.RequestEvicts` | src/Compositor.cpp:2370-2371 | the window that gives way has no mode, its own clamped client mode or none if it syncs, and its pin back if it was unpinned for fullscreen |
| `Fullscreen.RequestLowers` | src/Compositor.cpp:2354-2414 | which windows go under the fullscreen window: when one gives way or the mode changes, all of the workspace that are not fullscreen, fading or pinned; an unmapped window or the unsafe state refuses the request |
| `Fullscreen.InternalKeepsClient` | src/Compositor.cpp:2335-2340 | the wrapper for the internal mode leaves the client mode of a window that does not sync, and takes the mode along for one that does |
| `Fullscreen.EffectiveIsFloor` | src/Compositor.cpp:2362-2363 | the effective mode is the largest power of two in the mode, and none for none |
| `Fullscreen.ClampIsNearest` | src/Compositor.cpp:2356-2357 | a mode outside 0 to 3 becomes the nearer end |
| `Fullscreen.RequestPins` | src/Compositor.cpp:2365-2380 | a request unpins no window but its own, the eviction included |
| `Fullscreen.PinRoundTrip` | src/Compositor.cpp:2365-2380 | with pinned fullscreen allowed, a pinned window that goes fullscreen and leaves again is pinned as before |
| `Fullscreen.EvictIsLeave` | src/Compositor.cpp:2370-2371 | the eviction is one request to leave, made to another window, which does leave |
| `Fullscreen.ApplyIsLowering` | src/Compositor.cpp:2394-2413 | writing the window first and then lowering the windows under it, as the loop does, gives the same desktop as the specification |
| `Fullscreen.FullscreenWindow` | src/desktop/Workspace.cpp:408-415 | the search finds a fullscreen window of the workspace, or none exactly when there is none |
| `Compositor.Compositor.SetWindowFullscreenState` | src/Compositor.cpp:2349-2438 | the method on the tables has exactly the specified result |
| `Compositor.Compositor.SetWindowFullscreenInternal` | src/Compositor.cpp:2335-2340 | the wrapper passes the mode on for both fields or for the internal one, as the sync rule says |
| `Compositor.Compositor.SetWindowFullscreenClient` | src/Compositor.cpp:2342-2347 | the same for the client mode |
| `Compositor.Compositor.LowerOthers` | src/Compositor.cpp:2410-2414 | the loop lowers exactly the windows of the workspace that are neither fullscreen, fading nor pinned |
| `WindowMoves.UpdateIsQuiet` | src/desktop/Workspace.cpp:538-547 | recomputing the flag changes nothing while the bookkeeping holds |
| `WindowMoves.MoveKeepsInvExactly` | src/Compositor.cpp:2781-2866 | a move keeps the fullscreen bookkeeping if and only if it is not a fullscreen window that changes workspace during the unsafe state |
| `WindowMoves.UnsafeMoveBreaksInv` | src/Compositor.cpp:2781-2866 | in the unsafe state both requests inside the move return early, so the old workspace keeps a mode without a window |
| `WindowMoves.MoveEffect` | src/Compositor.cpp:2781-2866 | the window is on the target workspace and its monitor, in its old mode, as pinned and as large as before; whoever was fullscreen there gave way; a floating window keeps its distance from the corner of its monitor, and any other its position |
| `WindowMoves.MoveRefused` | src/Compositor.cpp:2781-2800 | a window that is there already, or a pinned one that is to go to a special workspace, stays as it is |
| `WindowMoves.MoveElsewhere` | src/Compositor.cpp:2781-2866 | what a move leaves alone |
| `Compositor.Compositor.MoveWindowToWorkspaceSafe` | src/Compositor.cpp:2781-2866 | the method on the tables has exactly the specified result |
| `Compositor.Compositor.MoveToWorkspace` | src/desktop/Window.cpp:409-450 | the window changes workspace and both flags are recomputed |
| `Workspaces.ChangeEffect` | src/helpers/Monitor.cpp:1214-1249 | changing the workspace of a monitor, its loop over pinned windows included, amounts to one simultaneous change, and keeps the fullscreen bookkeeping |
| `Workspaces.ChangeKeepsMonInv` | src/helpers/Monitor.cpp:1214-1249 | it keeps active workspaces pointing back at their monitors |
| `Workspaces.FindOther` | src/Compositor.cpp:2205-2210 | the search finds another ordinary workspace of the old monitor, or there is none |
| `Workspaces.FreeId` | src/Compositor.cpp:2212-2219 | the id search ends, with the least id from 1 that is neither used nor bound to another monitor |
| `Workspaces.CreateKeepsInv` | src/Compositor.cpp:2680-2701 | creating a workspace keeps the fullscreen bookkeeping by itself, and that of the monitors, wherever its binding puts it |
| `Workspaces.NextShownEffect` | src/Compositor.cpp:2202-2226 | the successor on the old monitor is one of its ordinary workspaces, or a free id not bound elsewhere |
| `Workspaces.PlugGapIs` | src/Compositor.cpp:2202-2229 | the workspace made to plug the gap is on the old monitor, which then shows it; both invariants hold |
| `Workspaces.HandoverKeepsInv` | src/Compositor.cpp:2232-2261 | carrying the windows over keeps the fullscreen bookkeeping by itself, and that of the monitors when the workspace is shown nowhere |
| `Workspaces.ActivateKeepsInv` | src/Compositor.cpp:2263-2291 | showing the workspace on the new monitor keeps the fullscreen bookkeeping by itself, and that of the monitors when the workspace is on that monitor |
| `Workspaces.MoveWorkspaceKeepsInv` | src/Compositor.cpp:2180-2293 | a move of a workspace keeps the fullscreen bookkeeping by itself, and along with it active workspaces and their monitors in step and windows on the monitor of their workspace |
| `Workspaces.MoveWorkspaceMonitors` | src/Compositor.cpp:2180-2293 | which workspace each monitor shows afterwards |
| `Workspaces.MoveWorkspaceWindows` | src/Compositor.cpp:2232-2261 | what becomes of every window, pinned ones included |
| `Workspaces.MoveWorkspacePlaces` | src/Compositor.cpp:2232-2261 | where every window is afterwards, in coordinates: a fullscreen one fills the new monitor, a floating one keeps its distance from the corner, a tiled, hidden or unmapped one its place and size; from no monitor, coordinates are remainders by the new extent; pinned windows stay with the successor |
| `PinnedWindows.MoveKeepsPinsExactly` | src/Compositor.cpp:2180-2293 | if every pinned window was on a workspace that is shown, it is after the move too, if and only if no workspace with pinned windows gives way on the monitor that shows the moved one at once |
| `PinnedWindows.MoveHidesPinned` | src/Compositor.cpp:2263-2291 | a concrete desktop on which a move hides a pinned window |
| `Compositor.Compositor.FindFreeId` | src/Compositor.cpp:2212-2219 | the loop ends with the specified id |
| `Compositor.Compositor.MoveWorkspaceToMonitor` | src/Compositor.cpp:2180-2293 | the method on the tables has exactly the specified result |
| `WorkspaceSwap.SwapKeepsInv` | src/Compositor.cpp:2017-2075 | a swap keeps the fullscreen bookkeeping by itself, and that of the monitors |
| `WorkspaceSwap.SwapExchanges` | src/Compositor.cpp:2017-2075 | the monitors exchange their workspaces and keep their boxes |
| `WorkspaceSwap.SwapPlaces` | src/Compositor.cpp:2022-2068 | where one swap leaves every window of both workspaces, in coordinates, and the pinned ones of the second workspace on the first |
| `PinnedWindows.SwapKeepsPins` | src/Compositor.cpp:2017-2075 | a swap leaves every pinned window on a workspace that is shown |
| `WorkspaceSwap.SwapTwice` | src/Compositor.cpp:2017-2075 | two swaps restore workspaces and monitors, and a window if and only if it is not a pinned window of the first workspace nor a fullscreen window that did not fill its monitor |
| `Compositor.Compositor.SwapActiveWorkspaces` | src/Compositor.cpp:2017-2075 | the two loops have exactly the specified result |
| `DesktopRuns.StepKeepsInvExactly` | src/Compositor.cpp:2017-2866 | one request, window move, workspace move or swap keeps the whole bookkeeping if and only if it is neither the unsafe move nor a request that unpins a window away from its workspace's monitor |
| `DesktopRuns.RunKeepsInv` | src/Compositor.cpp:2017-2866 | every run of these operations without the two cases keeps both bookkeepings at every point |
| `DesktopRuns.StepKeepsFsExactly` | src/Compositor.cpp:2017-2866 | each operation keeps the fullscreen bookkeeping, whatever that of the monitors says, if and only if it is not the unsafe move |
| `DesktopRuns.RunKeepsFs` | src/Compositor.cpp:2017-2866 | outside the unsafe state every run of any of these operations on live objects keeps the fullscreen bookkeeping at every point, and the eviction always finds its window |
| `DesktopRuns.RunWithoutPinning` | src/Compositor.cpp:2017-2866 | outside the unsafe state, and where pinned windows cannot go fullscreen, every run keeps both bookkeepings |
| `PinnedRuns.StepKeepsHomeExactly` | src/Compositor.cpp:2017-2866 | with every window, pinned ones included, on its workspace's monitor, an operation keeps that if and only if it is neither a swap whose first workspace has pinned windows nor a move of a workspace that has some and is not shown |
| `PinnedRuns.RunKeepsHome` | src/Compositor.cpp:2017-2866 | outside the unsafe state every run without those two keeps both bookkeepings and all windows on their workspaces' monitors, also where pinned windows can go fullscreen |
| `PinnedRuns.StepKeepsPinsExactly` | src/Compositor.cpp:2017-2866 | with every pinned window on a workspace that is shown, exactly which of the four operations leave one on a hidden workspace: a request that pins a window there again, a move of a pinned window there or one that makes a window there give way and pinned again, a move of a workspace before one with pinned windows; never a swap |
| `PinnedRuns.RunKeepsPins` | src/Compositor.cpp:2017-2866 | every run without those and without the two harmful cases has all pinned windows in sight at every point |
| `DesktopRuns.RequestMonInv` | src/Compositor.cpp:2365-2368 | the exact condition for a request |
| `DesktopRuns.SwapThenRequestStrands` | src/Compositor.cpp:2026-2030 | a concrete desktop on which a swap leaves a pinned window where the next request strands it |
| `Stacking.BlockIsClosure` | src/Compositor.cpp:1459-1476 | the block of an X11 window is exactly what given transient links reach among mapped visible X11 windows, each once, each after the one that pulled it in; cyclic links do no harm |
| `Transients.WalkEnds` | src/desktop/Window.cpp:477-488 | the walk over the parents ends at the first surface that is its own ancestor, and at nothing exactly when the parents come to an end |
| `Transients.PulledByCycle` | src/Compositor.cpp:1471-1473 | a window moves with another one if and only if its parents run into a cycle at that one |
| `Transients.MovesOthers` | src/Compositor.cpp:1464-1480 | a window is moved alone exactly when no other eligible one runs into a cycle of parents at it; without cycles every X11 window is |
| `Transients.DialogStaysBehind` | src/Compositor.cpp:1464-1480 | a concrete window and its dialog: raising the window raises the dialog if and only if the two are each other's parents |
| `Transients.X11TransientFor` | src/desktop/Window.cpp:473-499 | the loop with its list of visited surfaces ends, with the specified window |
| `Stacking.RestackedPermutes` | src/Compositor.cpp:1427-1483 | changing the z-order permutes the stack |
| `Stacking.RestackedShifts` | src/Compositor.cpp:1427-1483 | the windows that the transient links reach come after all others when raised and before them when lowered, the window itself first among them and each other one behind a window that pulls it; the others keep their order; nothing changes when the window is there already or not mapped |
| `Stacking.NextMoved` | src/Compositor.cpp:1437-1453 | moving one more window to the end by rotation extends the block at that end, the others in their old order |
| `Stacking.Stack.X11Stack` | src/Compositor.cpp:1464-1475 | the recursive collection terminates and collects the specified block |
| `Stacking.Stack.MoveToZ` | src/Compositor.cpp:1437-1453 | one rotation puts one window at the end and keeps the order of the others |
| `Stacking.Stack.ChangeWindowZOrder` | src/Compositor.cpp:1427-1483 | the same of the method, which also marks a raised window as created over fullscreen |
| `WindowCycle.GetWindowCycle` | src/Compositor.cpp:1744-1773 | the two searches around the current window give the next eligible one |
| `WindowCycle.AvailableIs` | src/Compositor.cpp:1728-1742 | which windows can follow: mapped and visible others of the workspace, or of any visible one, that match the wish |
| `WindowCycle.NextInRing` | src/Compositor.cpp:1744-1773 | one step goes to the next place of the ring of eligible windows |
| `WindowCycle.CycleVisitsAll` | src/Compositor.cpp:1769-1773 | repeated cycling visits every eligible window exactly once before it is back at the start |
| `WindowCycle.PrevUndoesNext` | src/Compositor.cpp:1769-1773 | the previous direction and the next one are inverse |
| `WindowCycle.NextAlone` | src/Compositor.cpp:1744-1751 | without another eligible window the starting one comes back, provided it is in the list |
| `FocusHistory.HistoryIsMostRecentFirst` | src/Compositor.cpp:1269-1276 | in every run of mapping, focusing and unmapping the history holds the mapped windows once each, the most recently focused first |
| `FocusHistory.FocusList.Focus` | src/Compositor.cpp:1269-1276 | the rotation brings the window to the front |
| `FocusHistory.FocusList.OnMap` | src/desktop/Window.cpp:586 | a mapped window joins at the end |
| `FocusHistory.FocusList.OnUnmap` | src/desktop/Window.cpp:525 | an unmapped window leaves, the others in order |
| `FocusDirection.GetWindowInDirection` | src/Compositor.cpp:1602-1672 | the history method finds a window exactly when some candidate begins within two pixels of the edge on the side asked for and shares an interval of it; of these the first one of the highest rank; and when the history is that of a run that mapped the mapped windows, it was focused more recently than every other window beside |
| `FocusDirection.SharedEdgeIsNextTo` | src/Compositor.cpp:1622-1646 | in each direction the shared length is positive exactly when the two boxes meet there, in coordinates |
| `FocusDirection.CandidateIs` | src/Compositor.cpp:1604-1614 | which windows are candidates: mapped, visible and tiled or fullscreen ones of the workspace, or of other monitors if the configuration allows, and under a fullscreen window only those over it |
| `FocusDirection.HighestRankIsMostRecent` | src/Compositor.cpp:1652-1667 | among windows of the history the highest rank is the most recent focus, over every run |
| `FocusDirection.HighestIsMostRecent` | src/Compositor.cpp:1652-1667 | over every run, no window beside was focused more recently than the one of the highest rank |
| `FocusDirection.MissingRanksFirst` | src/Compositor.cpp:1652-1660 | a window missing from the history would outrank all others; in every run with that history it is not mapped |
| `MonitorIds.NewIdEffect` | src/Compositor.cpp:1998-2015 | a remembered id that is free is used again; otherwise the least unused id, at most the number of other monitors |
| `MonitorIds.RunKeepsInv` | src/Compositor.cpp:3099-3113 | in every run of connects and disconnects ordinary monitors have distinct ids that are not negative |
| `MonitorIds.ComesBack` | src/Compositor.cpp:1998-2015 | a monitor that returns gets its old id if and only if no other has it |
| `MonitorIds.Monitors.GetNextAvailableMonitorID` | src/Compositor.cpp:1998-2015 | the search ends with the specified id, and remembers it |
| `MonitorIds.Monitors.OnDestroy` | src/helpers/Monitor.cpp:152 | the monitor of the output leaves the list |
| `Arrange.OrderIsPermutation` | src/Compositor.cpp:2885-2906 | the split into explicit and automatic monitors loses none and repeats none |
| `ArrangeApart.OrderIs` | src/Compositor.cpp:2885-2906 | explicit monitors come first, and either kind in the order of the list |
| `ArrangeApart.ArrangementPlaces` | src/Compositor.cpp:2889-2969 | an explicit monitor is at its offset; an automatic one touches the bounds of all before it on the side of its rule, and across that side is at zero or in the middle |
| `ArrangeApart.BeyondBound` | src/Compositor.cpp:2914-2932 | a monitor reaches beyond the bound of a side, by less than a pixel, exactly when it ends within a pixel beyond zero and no other one has a farther whole pixel |
| `ArrangeApart.AutoOverlaps` | src/Compositor.cpp:2934-2969 | an automatic monitor overlaps a monitor arranged before it if and only if that one sticks out beyond the bounds on the side of the rule and in front of it, and the two meet across that side; never by a whole pixel |
| `ArrangeApart.DeepIsInTheWay` | src/Compositor.cpp:2934-2969 | for a monitor at least one pixel deep, every monitor that sticks out on its side is in front of it |
| `ArrangeApart.ArrangementOverlaps` | src/Compositor.cpp:2881-2970 | the same for every pair of the whole arrangement whose later monitor is automatic |
| `ArrangeApart.ArrangementWhole` | src/Compositor.cpp:2881-2970 | from whole offsets and sizes every monitor gets whole edges if and only if each centred one leaves an even number of pixels beside it; without centred rules that is so |
| `ArrangeApart.NothingOverlaps` | src/Compositor.cpp:2881-2970 | in whole pixels, without centred rules or with even margins, no automatic monitor overlaps any monitor arranged before it |
| `ArrangeApart.CentredThenRightOverlaps` | src/Compositor.cpp:2942-2947 | with an odd margin half a pixel of overlap is possible: a concrete arrangement of whole offsets and sizes |
| `Arrange.XwaylandInARow` | src/Compositor.cpp:2972-2986 | the XWayland positions are the running sums of the widths, transformed ones with forced scaling, if and only if the widths so far are whole; otherwise they fall short by less than a pixel for each monitor |
| `Arrange.Monitors.ArrangeMonitors` | src/Compositor.cpp:2881-2987 | the loops place every monitor as specified |
| `Arrange.Monitors.PlaceExplicit` | src/Compositor.cpp:2889-2906 | the loop that erases while it iterates separates explicit from automatic monitors, in order |
| `Annotation.SegmentIsLeast` | src/canvas/CanvasAnnotation.cpp:393-407 | the distance to a segment is attained by one of its points and is least over all of them |
| `Annotation.NearestIsLeast` | src/canvas/CanvasAnnotation.cpp:72-127 | the search returns the first item that attains the least distance over all segments of all items, and nothing exactly when no segment is closer than the threshold |
| `Annotation.NearestInPlane` | src/canvas/CanvasAnnotation.cpp:72-127 | in the plane: what is found has a point within the limit and no drawing of the list has a closer one; nothing is found exactly when no drawing has a point within the limit |
| `Annotation.FindNearestStroke` | src/canvas/CanvasAnnotation.cpp:72-87 | the two loops with a running minimum compute that search |
| `Annotation.FindNearestArrow` | src/canvas/CanvasAnnotation.cpp:89-102 | the loop over arrows computes it |
| `Annotation.FindTextAt` | src/canvas/CanvasAnnotation.cpp:113-127 | the loop over texts computes it, for the distance to a point |
| `Annotation.FindStickyNoteAt` | src/canvas/CanvasAnnotation.cpp:104-111 | the loop finds what the specification names |
| `Annotation.NoteIsFirst` | src/canvas/CanvasAnnotation.cpp:104-111 | of overlapping notes the first in the list is found, none exactly when none covers the point |
| `CanvasDoc.RestoredAppends` | src/canvas/CanvasCommand.cpp:170-184 | an undone clear appends all four saved lists, in order, and touches no window |
| `CanvasDoc.CommandSound` | src/canvas/CanvasCommand.cpp:16-184 | every command, executed or undone, keeps ids distinct and below the next one, and gives fresh ids to whatever is new |
| `CanvasDoc.WithoutCuts` | src/canvas/CanvasAnnotation.cpp:20-25 | removal by an id that occurs once cuts out that annotation alone |
| `UndoRedo.StepKeepsInv` | src/canvas/CanvasUndoRedo.cpp:3-30 | drawing, erasing, clearing, dragging, undo and redo keep: at most 100 commands on both stacks together, live ids distinct and below the next id, no id that waits to be redone in use |
| `UndoRedo.RunKeepsInv` | src/canvas/CanvasUndoRedo.cpp:3-30 | the same for every run, changes from elsewhere included |
| `UndoRedo.FreshCanvas` | src/canvas/CanvasAnnotation.hpp:70-77 | the empty canvas satisfies it |
| `UndoRedo.UndoKeepsInv` | src/canvas/CanvasUndoRedo.cpp:12-20 | undo keeps the number of commands and the invariant |
| `UndoRedo.RedoKeepsInv` | src/canvas/CanvasUndoRedo.cpp:22-30 | redo, which checks no bound, keeps the number of commands and so the bound |
| `UndoHistory.UndoGoesBack` | src/canvas/CanvasUndoRedo.cpp:12-20 | for any history of drawing and dragging, k undos restore the annotations with ids and order, and the windows, exactly, for every k up to the bound |
| `UndoHistory.StackHoldsHundred` | src/canvas/CanvasUndoRedo.cpp:3-10 | the last hundred edits can be undone |
| `UndoHistory.RedoGoesForward` | src/canvas/CanvasUndoRedo.cpp:22-30 | j redos after that bring back the contents in order, annotations up to ids, windows exactly |
| `UndoHistory.ClearThenUndo` | src/managers/KeybindManager.cpp:3477-3499 | undoing a clear restores all four lists in order, up to ids |
| `UndoHistory.EraseThenUndo` | src/canvas/CanvasCommand.cpp:118-156 | undoing an erase puts the annotation back last, with a fresh id |
| `UndoHistory.EraseUndoRestores` | src/canvas/CanvasCommand.cpp:118-156 | undoing an erase restores the contents if and only if all that followed the erased annotation looks the same |
| `UndoHistory.DragUndoRestores` | src/layout/CanvasLayout.cpp:300-337 | undoing a drag restores the window if and only if it was a resize or the size did not change; windows that a frame tiled with it stay where they were put |
| `UndoHistory.ClearingKind` | src/canvas/CanvasAnnotation.cpp:155-170 | clearing one kind empties its list only, and leaves the stacks as they are |
| `UndoHistory.DragPushes` | src/layout/CanvasLayout.cpp:325-337 | a drag is worth a command exactly when the position changed, or in a resize the geometry |
| `UndoHistory.UndoThenRedo` | src/canvas/CanvasCommand.cpp:16-184 | in every reachable state, exactly when undo followed by redo leaves the contents alone; never after an erase |
| `UndoHistory.RedoThenUndo` | src/canvas/CanvasCommand.cpp:16-184 | in every reachable state, exactly when redo followed by undo does; never for an annotation that is added or removed |
| `UndoHistory.StaleUndo` | src/canvas/CanvasCommand.cpp:99-113 | draw, erase, undo, undo: the second undo does nothing, in every reachable state |
| `CanvasObjects.AnnotationStore.AddAnnotation` | src/canvas/CanvasAnnotation.cpp:12-63 | the annotation is appended to the list of its kind under the next id |
| `CanvasObjects.AnnotationStore.RemoveAnnotation` | src/canvas/CanvasAnnotation.cpp:20-70 | the annotations of that kind with the id are removed |
| `CanvasObjects.UndoStacks.Push` | src/canvas/CanvasUndoRedo.cpp:3-10 | the redo stack is emptied, the oldest command gives way at the bound |
| `CanvasObjects.UndoStacks.UndoLast` | src/canvas/CanvasUndoRedo.cpp:12-20 | the objects end as specified |
| `CanvasObjects.UndoStacks.RedoLast` | src/canvas/CanvasUndoRedo.cpp:22-30 | the objects end as specified |
| `CanvasObjects.UndoStacks.ExecuteCommand` | src/canvas/CanvasCommand.cpp:16-168 | every command does what the specification of its execution says |
| `CanvasObjects.UndoStacks.RevertCommand` | src/canvas/CanvasCommand.cpp:20-184 | every command undoes what the specification says |
| `CanvasObjects.UndoStacks.EndDrag` | src/layout/CanvasLayout.cpp:327-337 | a command is pushed only if the geometry it records has changed |
| `DrawMode.OneActionEach` | src/canvas/CanvasDrawMode.cpp:48-202 | every event leaves the canvas alone, or changes the store by one annotation and pushes exactly the command that leads there, and keeps the invariants |
| `DrawGesture.GestureDrawsItself` | src/canvas/CanvasDrawMode.cpp:109-219 | for any press, any moves and changes of tool, colour and thickness after it, and a release: the release draws what the tool of the press should draw if and only if the tools meet a condition known before the release; for the brush: the brush again and at every move, or a tool that draws nothing and no move; for the arrow: the arrow again; for others: nothing left over that the last tool would draw |
| `DrawGesture.StartsAtPress` | src/canvas/CanvasDrawMode.cpp:109-219 | what a release draws starts at its press if and only if the tool of the release is the tool of the press, or what an earlier gesture left happens to start there |
| `DrawGesture.BrushedAll` | src/canvas/CanvasDrawMode.cpp:204-215 | the stroke holds the whole path of the mouse exactly when the brush was the tool of every move |
| `DrawGesture.BrushGesture` | src/canvas/CanvasDrawMode.cpp:114-131 | press, any path with the brush and release draw the whole path in the colour and thickness of the press; a click draws nothing |
| `DrawGesture.ArrowGesture` | src/canvas/CanvasDrawMode.cpp:178-195 | press and release with the arrow draw an arrow from the one place to the other in the colour of the release, whatever was chosen in between |
| `DrawGesture.TypingGesture` | src/canvas/CanvasDrawMode.cpp:48-78 | a note or text is stored where the button went down: notes in their colour and size, texts in the colour of the submission |
| `DrawGesture.TypingGivenUp` | src/canvas/CanvasDrawMode.cpp:7-26 | choosing a tool, cancelling, submitting and leaving drawing mode give the text up |
| `DrawGesture.OutsideDrawingMode` | src/canvas/CanvasDrawMode.cpp:109-112 | outside drawing mode the mouse changes nothing |
| `DrawGesture.EraserGesture` | src/canvas/CanvasDrawMode.cpp:132-177 | a press of the eraser takes one annotation out of its list, or nothing when nothing is in reach |
| `DrawGesture.DistanceIs` | src/canvas/CanvasAnnotation.cpp:393-406 | distances are Euclidean, compared squared |
| `DrawGesture.EraserInPlane` | src/canvas/CanvasDrawMode.cpp:132-177 | which one, in the plane: a stroke within twenty pixels, else an arrow, else the first note under the pointer, else a text, and of its kind the closest |
| `DrawGesture.GestureUndone` | src/canvas/CanvasDrawMode.cpp:114-195 | one undo takes a gesture that drew itself back |
| `DrawGesture.ToggleGivesUp` | src/canvas/CanvasDrawMode.cpp:7-13 | leaving drawing mode gives the gesture up: the release draws nothing |
| `DrawMode.EraserTakesNearest` | src/canvas/CanvasDrawMode.cpp:132-177 | the eraser takes the nearest of the first kind within reach, and nothing exactly when nothing is |
| `DrawGesture.BrushEndsAsArrow` | src/canvas/CanvasDrawMode.cpp:178-195 | from brush to arrow between press and release: the arrow starts where an earlier one did |
| `DrawGesture.StrokeDrawnAgain` | src/canvas/CanvasDrawMode.cpp:122-131 | from arrow to brush: a stroke that was drawn before is drawn again, for every such pair of gestures |
| `DrawGesture.GestureGoesOn` | src/canvas/CanvasDrawMode.cpp:109-202 | after a release the gesture goes on exactly when the last tool was neither brush nor arrow |
| `CanvasObjects.DrawTool.HandleMouseButton` | src/canvas/CanvasDrawMode.cpp:109-202 | the method updates tool and canvas as specified |
| `CanvasObjects.DrawTool.HandleMouseMove` | src/canvas/CanvasDrawMode.cpp:204-219 | a drawn stroke grows, nothing else changes |
| `CanvasObjects.DrawTool.SubmitText` | src/canvas/CanvasDrawMode.cpp:48-78 | a note or text is stored and its command pushed |
| `TileLayout.ColsIsLeast` | src/canvas/CanvasFrame.cpp:32 | the number of columns is the least one whose square reaches the count |
| `TileLayout.RowsFit` | src/canvas/CanvasFrame.cpp:32-33 | the rows hold all windows, fewer than one row of cells stays empty, and there are no more rows than columns |
| `TileLayout.TilesInsideApart` | src/canvas/CanvasFrame.cpp:14-41 | exactly one tile per window, all inside the frame, no two overlapping |
| `TileLayout.FewCover` | src/canvas/CanvasFrame.cpp:19-30 | one to three tiles cover the frame |
| `TileLayout.FewPlaces` | src/canvas/CanvasFrame.cpp:20-29 | up to three windows: the first one has the frame or its left half, the others share the right half from the top |
| `TileLayout.GridReads` | src/canvas/CanvasFrame.cpp:31-40 | from four windows on the tiles follow each other like words on a page |
| `TileLayout.GridCovers` | src/canvas/CanvasFrame.cpp:32-40 | from four on the tiles cover the frame if and only if no cell of the grid is empty |
| `TileLayout.ComputeTileLayout` | src/canvas/CanvasFrame.cpp:14-41 | the loop produces the specified tiles |
| `Frames.StepKeepsInv` | src/canvas/CanvasFrame.cpp:59-141 | assigning, unassigning, switching, adding and removing tabs keep: a tab and a valid active index, every window in one slot at most, active windows exactly on their tiles, the others parked far below |
| `Frames.RunKeepsInv` | src/canvas/CanvasFrame.cpp:59-141 | the same for every run |
| `Frames.NewFrame` | src/canvas/CanvasFrame.cpp:9-12 | a new frame, with one empty tab, satisfies what every run keeps |
| `Frames.RetiledEffect` | src/canvas/CanvasFrame.cpp:65-79 | tiling puts the mapped windows of the active tab on their tiles and touches no other window |
| `TabEffects.AssignEffect` | src/canvas/CanvasFrame.cpp:81-90 | the window becomes the last of the active tab and is in no other, all other windows keep their tab and order, and a mapped one lies on the last tile |
| `TabEffects.UnassignEffect` | src/canvas/CanvasFrame.cpp:92-100 | the window is in no tab, all others keep their tab and order |
| `TabEffects.SwitchEffect` | src/canvas/CanvasFrame.cpp:109-121 | a tab that exists and is not active becomes active: its windows lie on the tiles, those of the old one 8000 and 120 for each tab below the frame; another number changes nothing |
| `TabEffects.AddTabEffect` | src/canvas/CanvasFrame.cpp:123-127 | the new tab is empty, last and active |
| `TabEffects.RemoveTabEffect` | src/canvas/CanvasFrame.cpp:129-141 | the active tab goes and the one before it, or the first, becomes active; the only tab stays |
| `TabEffects.NextPrevEffect` | src/canvas/CanvasFrameManager.cpp:75-86 | next goes to the tab after and from the last to the first, previous the other way |
| `Frames.ThereAndBack` | src/canvas/CanvasFrame.cpp:109-121 | going to another tab and back restores the tab and its geometry; only windows of the visited tab have moved |
| `Frames.NextThenPrev` | src/canvas/CanvasFrameManager.cpp:75-86 | next and then previous restores the active tab and its geometry |
| `Frames.PrevThenNext` | src/canvas/CanvasFrameManager.cpp:75-86 | and the other way round |
| `FrameDrags.DragExactly` | src/canvas/CanvasFrameManager.cpp:150-163 | after a drag the active windows are off their tiles unless there are none or the frame did not move; the next tiling mends that, but brings the other tabs back far below only if the drag was safe: no other tab has mapped windows, or straight and no farther down than each of them has slack |
| `FrameDrags.SafeDragByTab` | src/canvas/CanvasFrame.cpp:59-63 | with windows parked as their own tabs say, safe is: straight, and down by at most 120 for each place of the first other tab with mapped windows |
| `FrameDrags.ChangeExactly` | src/canvas/CanvasFrame.cpp:65-79 | when a window is mapped, unmapped, moved by someone else or gone: the slots hold, the active tab is untouched by windows outside it, and the other tabs stay far below if and only if the window is not a mapped one of theirs, or is far below already |
| `FrameDrags.RunKeepsSlots` | src/canvas/CanvasFrameManager.cpp:150-163 | runs with drags and such changes at any moment: slots stay in order, every tiling brings the active tab into place, and if all is safe the other tabs stay far below |
| `FrameObjects.CanvasFrame.Retile` | src/canvas/CanvasFrame.cpp:65-79 | the loops have the specified result |
| `FrameObjects.CanvasFrame.AssignWindow` | src/canvas/CanvasFrame.cpp:81-90 | the window leaves every tab and joins the active one last |
| `FrameObjects.CanvasFrame.UnassignWindow` | src/canvas/CanvasFrame.cpp:92-100 | the window leaves every tab |
| `FrameObjects.CanvasFrame.HasWindow` | src/canvas/CanvasFrame.cpp:102-107 | true exactly when some tab holds the window |
| `FrameObjects.CanvasFrame.SetActiveTab` | src/canvas/CanvasFrame.cpp:109-121 | the method has the specified result, for any index |
| `FrameObjects.CanvasFrame.AddTab` | src/canvas/CanvasFrame.cpp:123-127 | the method has the specified result |
| `FrameObjects.CanvasFrame.RemoveActiveTab` | src/canvas/CanvasFrame.cpp:129-141 | the method has the specified result |
| `FrameList.RunKeepsInv` | src/canvas/CanvasFrameManager.cpp:8-168 | in every run frame ids are distinct and growing, and the active id names a frame whenever there is one |
| `FrameList.CreateEffect` | src/canvas/CanvasFrameManager.cpp:8-25 | a new frame is last, has a new id and is active |
| `FrameList.DeleteEffect` | src/canvas/CanvasFrameManager.cpp:41-58 | exactly the frame with the id goes, and another active one stays active |
| `FrameList.CoversIs` | src/canvas/CanvasFrameManager.cpp:88-97 | a frame covers its edges and nothing beyond |
| `FrameList.DropEffect` | src/canvas/CanvasFrameManager.cpp:99-120 | a window dropped on a frame makes the first one that covers it active |
| `FrameList.ActiveFrameIs` | src/canvas/CanvasFrameManager.cpp:133-138 | the frame with the active id, or the last one when there is none |
| `FrameList.BeginEndDrag` | src/canvas/CanvasFrameManager.cpp:140-168 | a drag takes the active frame from where the mouse is, and after its end the mouse moves none |
| `FrameList.DeleteActivatesNewest` | src/canvas/CanvasFrameManager.cpp:41-58 | deleting the active frame activates the newest of the others |
| `FrameList.DragMoves` | src/canvas/CanvasFrameManager.cpp:140-163 | a drag moves the active frame by the whole way of the mouse, whatever lies between, and no other frame |
| `FrameList.FrameManager.FindActive` | src/canvas/CanvasFrameManager.cpp:133-138 | the frame with the active id, else the last |
| `FrameList.FrameManager.DeleteFrame` | src/canvas/CanvasFrameManager.cpp:41-58 | the list and the active id end as specified |
| `Viewport.Run` | src/canvas/CanvasViewport.cpp:18-70 | in every run the scale stays within 0.1 and 3 |
| `Viewport.MapsInverse` | src/canvas/CanvasViewport.cpp:5-11 | the maps between canvas and screen are inverse to each other |
| `Viewport.ZoomFixesAnchor` | src/canvas/CanvasViewport.cpp:23-28 | zooming keeps the canvas point under the anchor, clamped or not |
| `Viewport.ZoomMultiplies` | src/canvas/CanvasViewport.cpp:23-28 | the scale is multiplied by the factor, and brought between a tenth and three |
| `Viewport.PanMoves` | src/canvas/CanvasViewport.cpp:18-21 | everything on the screen moves by the delta |
| `Viewport.CentringShows` | src/canvas/CanvasViewport.cpp:38-46 | the point is in the middle of the monitor |
| `Viewport.SnappingShows` | src/canvas/CanvasViewport.cpp:66-70 | the canvas is shown at its own size with the corner of the box in the corner of the screen |
| `Viewport.FitRefused` | src/canvas/CanvasViewport.cpp:48-55 | without a monitor, or for a box without extent, the view stays |
| `Viewport.FitFills` | src/canvas/CanvasViewport.cpp:48-64 | the box is centred and takes nine tenths of the monitor on its longer axis and no more on the other, as far as the scale stays between a tenth and three |
| `Viewport.FitShowsAll` | src/canvas/CanvasViewport.cpp:48-64 | the box is shown whole if and only if the smallest scale could show it |
| `Viewport.CanvasViewport.Zoom` | src/canvas/CanvasViewport.cpp:23-28 | the fields end as specified |
| `Viewport.CanvasViewport.ZoomToFit` | src/canvas/CanvasViewport.cpp:48-64 | the fields end as specified |
| `Minimap.BoundsHold` | src/canvas/CanvasMinimap.cpp:22-56 | the bounds have a positive extent and hold every window that counts |
| `Minimap.BoundsAre` | src/canvas/CanvasMinimap.cpp:22-56 | the bounds reach two hundred beyond the extent of the windows and what the monitor shows of the canvas; without windows there are none |
| `Minimap.ClickIgnored` | src/canvas/CanvasMinimap.cpp:152-165 | a click beside the minimap, without a monitor or without windows changes nothing |
| `Minimap.ExtentTight` | src/canvas/CanvasMinimap.cpp:22-56 | each side of the extent is that of a counted window |
| `Minimap.InTheCorner` | src/canvas/CanvasMinimap.cpp:58-63 | the minimap is sixteen pixels from the lower right corner |
| `Minimap.WindowsInsideMinimap` | src/canvas/CanvasMinimap.cpp:65-119 | both corners of every drawn window lie inside the minimap |
| `Minimap.ClickCentres` | src/canvas/CanvasMinimap.cpp:152-180 | clicking the image of a canvas point is taken and centres the view on that point |
| `Minimap.CanvasBounds` | src/canvas/CanvasMinimap.cpp:22-56 | the loop over minimum and maximum computes the bounds |
| `Minimap.HandleClick` | src/canvas/CanvasMinimap.cpp:152-180 | the method moves the view as specified |
| `Digits.PrintedValue` | src/signal-safe.hpp:89-99 | only decimal digits are printed, the last not 0, and their value with the dropped digits as zeros is the number |
| `Digits.PrintedExactly` | src/signal-safe.hpp:36-41 | the number is printed as it is if and only if it does not end in 0; 0 prints nothing |
| `SignalSafe.StartDivisor` | src/signal-safe.hpp:90-92 | the divisor is the largest power of ten within the number, and no product overflows |
| `SignalSafe.NextDigit` | src/signal-safe.hpp:93-98 | one round divides by a positive number and gives one digit |
| `SignalSafe.BufFileWriter.Write` | src/signal-safe.hpp:63-73 | sent and buffered bytes together grow by exactly the data; indices stay in bounds; the loop ends for every size of system writes |
| `SignalSafe.BufFileWriter.WriteChar` | src/signal-safe.hpp:74-79 | they grow by the character, also when the buffer was full |
| `SignalSafe.BufFileWriter.Flush` | src/signal-safe.hpp:155-165 | everything is sent in order, whatever parts the system takes |
| `SignalSafe.BufFileWriter.WriteNum` | src/signal-safe.hpp:89-99 | they grow by the specified digits |
| `SignalSafe.MaxLengthCString.Write` | src/signal-safe.hpp:15-23 | data that fits is appended and terminated, data that does not ends the string for good |
| `SignalSafe.MaxLengthCString.WriteChar` | src/signal-safe.hpp:24-31 | the same for a character, without a terminator |
| `SignalSafe.MaxLengthCString.WriteNum` | src/signal-safe.hpp:32-42 | the bound is met exactly when the digits do not fit; what is kept is a beginning of what was asked for |
| `Popups.RootVisits` | src/desktop/Popup.cpp:379-407 | the visit has every popup of the tree as often as the tree does, in order of depth |
| `Popups.VisitsByDepth` | src/desktop/Popup.cpp:379-398 | the visit never goes back up |
| `Popups.BfHelper` | src/desktop/Popup.cpp:379-398 | the loops and the recursion compute the visit by levels, and end |
| `Popups.At` | src/desktop/Popup.cpp:409-437 | a popup is found exactly when one is hit, and no popup that is hit lies deeper |
| `Popups.HitIs` | src/desktop/Popup.cpp:414-434 | what a hit is, in the popup's own coordinates: a point of its surface and input region, or of its window geometry |
| `Popups.RelativeToTop` | src/desktop/Popup.cpp:296-314 | where the top-level surface and a popup right below it lie |
| `Popups.RelativeToParent` | src/desktop/Popup.cpp:296-314 | a popup lies in its parent as its own geometry says, window margins aside |
| `Popups.CoordsRelativeToParent` | src/desktop/Popup.cpp:296-314 | the walk up the tree computes the recursive definition |
| `Batch.PiecesRejoin` | src/debug/HyprCtl.cpp:1345-1369 | the pieces contain no semicolon outside brackets and are balanced; rejoined they give the request back if and only if its brackets balance |
| `Batch.CutUnique` | src/debug/HyprCtl.cpp:1353-1366 | there is only one such cut |
| `Batch.RepliesJoined` | src/debug/HyprCtl.cpp:1359-1368 | the reply is the answers to the pieces that are not empty, with delimiters between them and none after the last |
| `Batch.DispatchBatch` | src/debug/HyprCtl.cpp:1345-1369 | the loop computes that reply |

## Left out

- Objects that refer to each other by pointer: the model uses ids and tables of records, so it does not capture aliasing or lifetimes; a window that is gone is absent from its table.
- Rounding of doubles, the wrap-around of 64-bit ids, and overflow of int offsets: coordinates are reals and ids unbounded; only `writeNum` is bounded by the width of its number.
- `ceil(sqrt(count))` in the tile layout is the exact integer root, without the square root of doubles.
- The layouts' own geometry on fullscreen requests: the canvas layout does nothing there.
- Window groups, swallowed windows and windows without a workspace in the moves between workspaces.
- Special workspaces shown over a monitor, names of workspaces, and the destruction of empty workspaces.
- Moving the focus, warping the pointer, animations, damage and events that go with every operation.
- `Workspaces.MoveWorkspaceKeepsInv`: bindings are a fixed map from ids to connected monitors; monitors do not come and go during a run of the desktop.
- `Workspaces.HandoverKeepsInv`: a monitor of a width between 0 and 1, where the remainder would divide by 0, gives 0.
- Focus in a direction by shared length and by angles: only the history method is modelled; a direction is one of the four.
- `WindowCycle.NextAlone`: when the current window is not in the list and no other is eligible, the program reads past the end; the model returns nothing.
- Drawing, saving and loading of annotations, and the `m_dirty` flag.
- `UndoHistory.UndoGoesBack`: a drag counts as one step; what happens while the button is held is not modelled, nor are windows that other code moves between the edits.
- `CanvasObjects.AnnotationStore.AddAnnotation`: one method stands for the four `add` functions, which differ in the list only; the same for removal.
- The conversion of a mouse position to the canvas before the tools see it: positions are canvas positions (`Viewport.MapsInverse` has the conversion).
- `Frames.RunKeepsInv`: which windows are mapped stays as it is, and the frame does not move; `FrameDrags.RunKeepsSlots` has the runs in which that changes.
- `DesktopRuns.RunKeepsFs`: the configuration and the unsafe state stay as they are during a run.
- Labels of tabs, a window in two frames, and the parking of a deleted frame's windows.
- The zoom bar of the minimap, which needs logarithms, and the rectangle of the view on it.
- `SignalSafe.BufFileWriter.Flush`: a system write that fails keeps the buffer full, so writing might not end; the model has positive writes of any size only.
- `SignalSafe.MaxLengthCString.WriteChar`: the string is not terminated after a character, and the model does not promise it; output of commands is not part of this model.
- Creating, mapping, repositioning and destroying popups; `Popups.At` takes the tree as it is, and a region as a list of boxes.
- The commands that a batch runs: `Batch.DispatchBatch` takes the answer to each as a function of its text.
