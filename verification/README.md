# A Dafny model of wlc's stateful algorithms

wlc is a C library for Wayland compositors. Most of it is glue to EGL, DRM, xcb and
libinput; underneath are several small algorithms and protocols whose invariants span
functions and files. This project models those and proves the properties they are there
for. `dafny verify dfyconfig.toml` checks everything.

Where the source updates state in place, the model is a class whose methods have the same
writes in the same order; each method is proved equal to a function on snapshots of the
state, and the properties are lemmas about those functions, over every state and every run.
Foreign calls, the application's answers and allocation are parameters.

| file | subject |
|---|---|
| `Culling.dfy` | the boolean grid that decides which views are drawn, against plain painter's-algorithm drawing |
| `Pairing.dfy` | `wlc_surface_attach_to_view` and `wlc_view_set_surface`, which call each other |
| `FrameLoop.dfy`, `FrameLoopInvariant.dfy`, `FrameLoopSafety.dfy`, `FrameLoopProgress.dfy`, `FrameLoopDead.dfy`, `FrameLoopRuns.dfy`, `FrameLoopCode.dfy` | outputs, flips, deferred requests, terminal hand-over and shutdown as one step system, for backends whose flips complete later and for those that finish inside the swap; legal traces and the invariant; what every run keeps; what it gets done; what a failed swap or a lost and regained terminal does to it; short failing runs; the code |
| `Registry.dfy`, `RegistryCode.dfy` | handles, sources, slots and nested sources |
| `ReleaseGraph.dfy` | destructors that release other handles |
| `SurfaceTree.dfy` | parent and child lists, restacking, destruction |
| `HitTest.dfy` | finding the surface at a position, and what is seen there |
| `FrameCallbacks.dfy`, `FrameCallbacksTrees.dfy`, `FrameCallbacksOrder.dfy`, `FrameCallbacksCode.dfy` | `wl_surface.frame` from request to answer, over the queues of all outputs; which surfaces of a tree an event reaches, and in which order; when the answers come in order; the code |
| `Buffers.dfy` | reference counts behind `wl_buffer.release` |
| `DrmFlip.dfy` | the two framebuffer slots of the DRM backend |
| `FdTable.dfy` | the descriptor table of the privileged process |
| `KeyRepeat.dfy` | key repeat by re-injection |
| `Relayout.dfy` | the tiling of the example compositor |
| `Geometry.dfy`, `Basics.dfy` | points, sizes and rectangles; optional values and other small notions |

## Where the code does not do what one would expect

The lemmas named give a concrete input or run that fails, the exact condition under which
the code does meet the property, or both.

- Culling clamps the far corner of a rectangle to 1, so an opaque view wholly off the left
  or top edge fills a phantom column or row and hides what is under it
  (`Culling.PhantomColumnExample`, `Culling.AdmissibleIffNoPhantom`,
  `Culling.HarmlessIffAdmissible`).
- `wlc_surface_get_opaque` answers with the extents of the opaque region, while the view
  paints its whole surface: a window with a translucent shadow disappears, shadow included,
  once another view covers its opaque part (`Culling.ShadowExample`,
  `Culling.HarmlessIffOpaqueIsPainted`).
- Subsurfaces may stick out of the box that is tested, and vanish once that is covered
  (`Culling.SubsurfaceExample`, `Culling.HarmlessIffOpaqueIsPainted`).
- An output whose swap or flip fails waits for good, and the terminal with it
  (`FrameLoopRuns.DeadFlightWaits`, `FrameLoopDead.DeadFlightHolds`,
  `FrameLoopDead.GivenUpExactly`); if it had fallen asleep with its timer armed, it waits
  unscheduled (`FrameLoopRuns.LateSwapFails`, `FrameLoopDead.LapseKeepsExactly`).
- A terminal that comes back during a flight does not withdraw the removal of the surface
  (`FrameLoopRuns.ReturnWithoutSurface`, `FrameLoopDead.ReturnHoldsExactly`).
- Without a sleep hook, which the X11 and Wayland backends lack, falling asleep clears
  `scheduled` but leaves the timer armed, until it fires (`FrameLoopRuns.HooklessSleepIsLate`,
  `FrameLoopProgress.SleepIsLateExactly`, `FrameLoopProgress.LateEndsWithTimer`).
- The terminal is switched by an idle callback after the request, and a surface may have
  been gained in between (`FrameLoopRuns.SwitchWithSurface`,
  `FrameLoopProgress.SwitchHoldsNothingExactly`).
- A second request to terminate announces the end at once, even while a surface is held
  (`FrameLoopRuns.TerminateTwice`, `FrameLoopProgress.SecondTerminateExactly`).
- A wake-up during a flight does not withdraw the sleep deferred in it
  (`FrameLoopRuns.WakeInFlightIsLost`, `FrameLoopProgress.WakeInFlightExactly`).
- A surface that moves to another output while callbacks of it wait at the first has a later
  callback answered before an earlier one (`FrameCallbacksOrder.MovedSurfaceOvertakes`,
  `FrameCallbacksOrder.CollectKeepsOrderExactly`).
- Only self-parenting is refused; two surfaces can become each other's parent
  (`SurfaceTree.CycleExample`, `SurfaceTree.ReparentedAcyclicIff`).
- The front of the list of subsurfaces is drawn first, so that one placed above its sibling
  is drawn under it; and of siblings that overlap the search takes the first, while the last
  is seen (`SurfaceTree.MovedIsRestacked`, `HitTest.HitIsTopmostExactly`).
- Drawing does not add up the offsets of nested subsurfaces, the search does
  (`HitTest.NestedExample`, `HitTest.PaintedWhereTestedExactly`).
- Attaching NULL does not withdraw a buffer that is pending (`Buffers.CommitShowsLastExactly`).
- A buffer attached to a second surface leaves the first naming it after its death
  (`Buffers.SharedBufferDangles`, `Buffers.AttachKeepsExactly`).
- If the mode is set to a new buffer and the flip to it then fails, the buffer on screen is
  given back (`DrmFlip.FirstFlipFails`, `DrmFlip.RepaintKeepsExactly`); after any failed
  flip the output stands still (`DrmFlip.FailedFlipFreezes`); releasing the surface between
  frames leaves the shown framebuffer registered (`DrmFlip.ReleaseAfterFirstFrame`,
  `DrmFlip.SurfaceReleaseLeavesShown`).
- A device opened twice cannot be closed twice; the second descriptor leaks
  (`FdTable.DoubleOpenLeaks`, `FdTable.OpenKeepsExactly`).
- With two or more repeating keys taken by the application, the repeat falls back to the
  initial delay (`KeyRepeat.TwoTakenKeysUseTheDelay`).

## Model

| member | source | states |
|---|---|---|
| Culling.CullingPreservesImage | src/compositor/output.c:163-216 | drawing only the culled list, with the background hook run only when the flag asks for it, gives every pixel the colour of drawing all mapped and masked views bottom to top, for any stack of views whose painting, subsurfaces included, stays in the boxes they test and whose filling stays under their solid painting |
| Culling.HarmlessIffAdmissible | src/compositor/output.c:201-209 | a visible view can be culled around in every stack exactly when its painting stays in the box it tests and its filling stays under its solid painting |
| Culling.AdmissibleIffNoPhantom | src/compositor/output.c:203-204 | for a view that paints the rectangle it tests, that condition is: not opaque, or not wholly off the left or top edge while reaching the screen in the other direction |
| Culling.HarmlessIffOpaqueIsPainted | src/resources/types/surface.c:271-312 | a view with an opaque region can be culled around in every stack exactly when the extents of the region make no phantom cells and are the very pixels it paints on the screen, and the region has no gaps there |
| Culling.SubsurfaceExample | src/compositor/output.c:239-279 | a window whose subsurface sticks out of its opaque region and vanishes under a view that covers just the region |
| Culling.ShadowExample | src/resources/types/surface.c:279-297 | a window whose translucent shadow vanishes under a view that covers only its opaque part |
| Culling.PhantomColumnExample | src/compositor/output.c:203-204 | a 4x4 screen on which an opaque view left of the screen makes the view under column 0 vanish |
| Culling.OnlyMappedCount | src/compositor/output.c:128-134 | striking from the list every view that is gone or unattached, or whose mask shares no bit with the output's, changes neither what is listed nor what is covered |
| Culling.ListedAreMapped | src/compositor/output.c:195-196 | and no such view is ever listed |
| Culling.AllMappedPainted | src/compositor/output.c:128-134 | drawing without culling draws all the others, bottom to top |
| Culling.Output.GetVisibleViews | src/compositor/output.c:163-216 | the list is exactly the mapped and masked views that touch a cell no opaque one above covers, in order; the grid ends as the union of the clamped opaque rectangles; the flag holds iff some pixel is uncovered |
| Culling.Output.ScanView | src/compositor/output.c:182-210 | one round of the scan, which runs top to bottom: the view is kept iff some cell of its box is still free, and fills its box iff opaque |
| Culling.Output.Blit | src/compositor/output.c:136-161 | answers whether the box holds a free cell, and fills exactly the box when asked, also when it stops looking early |
| Culling.Output.BlitRow | src/compositor/output.c:143-157 | the same for one row, starting from what earlier rows have shown |
| Culling.RowSlice | src/compositor/output.c:145-147 | every row slice the box touches lies inside the grid |
| Culling.Output.SetResolution | src/compositor/output.c:745-783 | the grid has one cell per virtual pixel after every change of resolution or scale, all clear; zero extents, unchanged settings and sizes that overflow change nothing |
| Pairing.AttachRelinks | src/resources/types/surface.c:343-353 | from a one-to-one matching, attaching a surface to any view or to none ends with exactly that pair linked both ways, both old partners cleared, every other pair untouched |
| Pairing.AssignRelinks | src/compositor/view.c:322-340 | so does giving a view a surface, or none, which comes in from the other side |
| Pairing.RelinkedIsMatching | src/resources/types/surface.c:343-353 | that result is again a one-to-one matching |
| Pairing.RunsStayMatched | src/resources/types/surface.c:343-353 | so it is after any run of attach requests, creations and releases of surfaces and views |
| Pairing.ViewGoneExactly | src/compositor/view.c:799-819 | a view that dies leaves its surface without one, and every other link as it was |
| Pairing.SurfaceGoneExactly | src/resources/types/surface.c:433-455 | a surface that dies takes its own view with it, and every other link stays |
| Pairing.LinkFree | src/compositor/view.c:322-340 | a free surface given a view that has another one: the first write is undone by way of the old partner and then done again |
| Pairing.LinkTaken | src/resources/types/surface.c:343-353 | a surface that has a view already: clearing the old view runs into the surface and through it into the new view |
| Pairing.LinkVacant | src/compositor/view.c:322-340 | a free view given a surface that has another one: the first write is undone by way of the old view and then done again |
| Pairing.LinkHeld | src/compositor/view.c:322-340 | a view that has a surface already: clearing the old surface runs into the view and through it into the new surface |
| Pairing.RankFallsFromSurface | src/resources/types/surface.c:343-353 | the measure that makes the mutual recursion terminate falls across the clearing of the old view |
| Pairing.RankFallsFromView | src/compositor/view.c:322-340 | and across the clearing of the old surface |
| Pairing.Compositor.AttachToView | src/resources/types/surface.c:343-353 | the method terminates from every state, broken pairings included, and computes the function the theorem is about |
| Pairing.Compositor.SetSurface | src/compositor/view.c:322-340 | likewise for the other half |
| Pairing.Compositor.CreateSurface | src/compositor/compositor.c:180-196 | a new surface has no view |
| Pairing.Compositor.CreateView | src/compositor/compositor.c:551-560 | a new view has no surface |
| Pairing.Compositor.ReleaseView | src/compositor/view.c:799-819 | computes the function, the surface letting go while the view still resolves |
| Pairing.Compositor.ReleaseSurface | src/resources/types/surface.c:433-455 | computes the function, the view going first |
| FrameLoopSafety.EveryRunIsSafe | src/compositor/output.c:305-432 | over every run, whichever backend the outputs have: `scheduled` iff the timer is armed or a frame is in flight, except for an output that fell asleep without a sleep hook, and never both; requests are deferred only in flight, and frames stay in flight only where flips complete later or, after a failed swap, never; swaps and flips alternate, surfaces change and sleep and removal happen only out of flight, the release of the terminal or its switch is requested only when no output holds a surface and once per DEACTIVATING, and the end is announced only when none is held |
| FrameLoopSafety.StepOk | src/compositor/output.c:305-432 | every event keeps the invariant behind it |
| FrameLoopSafety.SetSurfaceOk | src/compositor/output.c:526-601 | changing the surface keeps it, although the signal emitted inside looks at all outputs again |
| FrameLoopSafety.FinishTasksOk | src/compositor/output.c:218-237 | performing the deferred requests leaves none, restores the invariant and drops the surface of a terminated output |
| FrameLoopSafety.FinishFrameOk | src/compositor/output.c:402-432 | so does the completion of a frame |
| FrameLoopSafety.RepaintOk | src/compositor/output.c:312-393 | the timer starts one swap, which ends within the event where the backend finishes the frame in the swap and never if it fails, or cancels the repaint |
| FrameLoopSafety.FinishedAtOnce | src/platform/backend/x11.c:47-55 | such a frame leaves nothing in flight and nothing deferred |
| FrameLoopSafety.AddOutputOk | src/compositor/compositor.c:411-474 | a new output keeps the invariant, even one whose timer outlived its sleep |
| FrameLoopSafety.SurfaceSetExactly | src/compositor/output.c:526-601 | out of flight the surface held already is no change, and any other is taken, or none if it fails; a repaint is due iff client surfaces attach again, and none without a surface |
| FrameLoopSafety.RespondTtyExactly | src/compositor/compositor.c:245-275 | the signal of a surface change carries out a return at once, and a leaving once nobody holds a surface, towards the terminal asked for if there is one |
| FrameLoopSafety.AddedExactly | src/compositor/compositor.c:411-474 | the first output without a surface is used again, and a new one only if there is none; an accepted one has the surface if that could be set, repaints, and gets the focus iff nobody had it |
| FrameLoopSafety.RefusedIsRemoved | src/compositor/compositor.c:411-474 | a refused one is removed without having had a surface or keeping the focus, and while terminating the end is announced iff no surface is held |
| FrameLoopSafety.LostIsRemoved | src/platform/backend/drm.c:557-594 | an output the backend has lost goes at once, the focus with it, or is recorded to go when its flight ends |
| FrameLoopSafety.NothingToTerminate | src/compositor/compositor.c:669-689 | without outputs a request to terminate is announced at once, and so is every further one |
| FrameLoopSafety.FocusExactly | src/compositor/compositor.c:422-442 | the focus goes where it is sent, and the output that had it and the one that gets it repaint |
| FrameLoopSafety.RemovalRefocuses | src/compositor/compositor.c:476-502 | an output that goes with the focus hands it to another one that holds a surface, or to nobody iff there is none |
| FrameLoopSafety.LeaveOk | src/compositor/compositor.c:277-296 | leaving the terminal keeps the invariant and leaves every output without surface or with its removal recorded |
| FrameLoopProgress.LeaveAtOnceExactly | src/compositor/compositor.c:277-296 | the terminal is given up in the very event that asks for it iff no frame is in flight |
| FrameLoopProgress.HooklessLeavesAtOnce | src/platform/backend/wayland.c:426-434 | without sleep hooks nothing is in flight or deferred between events but where a swap failed, so DEACTIVATING is left at once iff none did |
| FrameLoopSafety.RemoveOutputAnnounces | src/compositor/compositor.c:476-502 | while terminating, removing an output announces the end or another output still holds a surface |
| FrameLoopSafety.TerminateOk | src/compositor/compositor.c:669-689 | a first request to terminate keeps the invariant and leaves every holder due for removal |
| FrameLoopProgress.CompletionPerformsAll | src/compositor/output.c:218-237 | a completed frame performs every request deferred in it, in the order surface, sleep, terminate, and leaves none recorded |
| FrameLoopProgress.WantedRepaintIsServed | src/compositor/output.c:402-432 | a wanted repaint of a running output is served: once its flight ends and its timer fires, a new swap starts |
| FrameLoopProgress.FlightEndsExactly | src/compositor/output.c:402-432 | a flight with nothing deferred ends with the timer armed iff a repaint was asked for since the flight before it ended |
| FrameLoopProgress.QuietAfterOneMore | src/compositor/output.c:402-432 | a frame that nobody asks to repeat is followed by one more at most, and then the output is quiet |
| FrameLoopProgress.SleepInFlightIsKept | src/compositor/output.c:785-797 | a sleep asked for in flight is recorded and nothing else, and the output is asleep when the flight ends |
| FrameLoopProgress.TimerInFlightDrawsNothing | src/compositor/output.c:305-320 | a timer that fires during a flight draws nothing |
| FrameLoopProgress.IdleTimerSleeps | src/compositor/output.c:312-320 | a timer that fires with nothing to draw on performs a deferred sleep all the same |
| FrameLoopProgress.TerminalIsGivenUp | src/compositor/compositor.c:245-296 | with no surface gained and all flights completing, DEACTIVATING is always left |
| FrameLoopProgress.TerminationIsAnnounced | src/compositor/compositor.c:669-689 | with at least one output, no surface gained and all flights completing, a first request to terminate is announced |
| FrameLoopDead.DeadFlightHolds | src/platform/context/egl.c:535-554 | over every run an output whose swap failed keeps its surface and stays in flight, and DEACTIVATING, once entered, is not left before the terminal comes back |
| FrameLoopDead.GivenUpExactly | src/compositor/compositor.c:245-296 | with no surface gained and every queued flip completing, DEACTIVATING is left iff no swap in flight had failed |
| FrameLoopDead.LapseKeepsExactly | src/compositor/output.c:312-393 | a swap that fails keeps the invariant iff the output had not fallen asleep with its timer left armed |
| FrameLoopDead.ReturnHoldsExactly | src/compositor/compositor.c:277-296 | after the terminal has come back during a flight, the output holds a surface at the end of it iff neither a removal nor a termination was deferred before, and a surface that was deferred can be set |
| FrameLoopDead.ReturnWakes | src/compositor/compositor.c:277-296 | when the terminal has come back no output is asleep, whatever was found or lost, and each that was and has no frame in flight is scheduled with its timer armed |
| FrameLoopRuns.DeadFlightWaits | src/platform/context/egl.c:547-553 | a run in which the first swap fails: whatever follows, the terminal is not given up |
| FrameLoopRuns.LateSwapFails | src/compositor/output.c:806-810 | a run that ends with a frame in flight unscheduled, and the timer armed beside it |
| FrameLoopRuns.ReturnWithoutSurface | src/compositor/compositor.c:277-296 | a run that ends active and IDLE with no surface held |
| FrameLoopProgress.SleepIsLateExactly | src/compositor/output.c:785-813 | falling asleep leaves the timer armed but not scheduled iff it was armed and there is no sleep hook |
| FrameLoopProgress.LateEndsWithTimer | src/compositor/output.c:312-393 | that ends when the timer fires, with a frame drawn and finished in the same event or none |
| FrameLoopRuns.HooklessSleepIsLate | src/compositor/output.c:806-810 | a run from the start of an X11 output that reaches such a state |
| FrameLoopProgress.SecondTerminateExactly | src/compositor/compositor.c:669-689 | a request to terminate right after the first is legal iff no frame was in flight at the first |
| FrameLoopRuns.TerminateTwice | src/compositor/compositor.c:687-688 | a run from the start in which a second request announces the end with a surface held |
| FrameLoopProgress.WakeInFlightExactly | src/compositor/output.c:785-797 | after a wake-up in flight the output is asleep at the end of the flight iff a sleep had been deferred in it |
| FrameLoopRuns.WakeInFlightIsLost | src/compositor/output.c:228-231 | a run from the start in which an output sleeps although it was woken last |
| FrameLoopProgress.SwitchHoldsNothingExactly | src/compositor/compositor.c:225-233 | at the switch no surface is held iff every output given one since the request has lost it again, in particular if none was given one |
| FrameLoopRuns.SwitchWithSurface | src/compositor/compositor.c:259-261 | a run from the start that switches while an output holds a surface |
| FrameLoopRuns.SwitchAfterLoss | src/compositor/compositor.c:225-233 | a run from the start in which a surface is gained and lost before the switch, which then meets none |
| FrameLoopCode.Compositor.ScheduleRepaint | src/compositor/output.c:507-524 | computes the step function |
| FrameLoopCode.Compositor.CancelRepaint | src/compositor/output.c:395-400 | computes the step function |
| FrameLoopCode.Compositor.SetBackendSurface | src/compositor/output.c:526-601 | computes the step function, the recursive retry without a surface included |
| FrameLoopCode.Compositor.SetSleepPtr | src/compositor/output.c:785-813 | computes the step function |
| FrameLoopCode.Compositor.TerminateOutput | src/compositor/output.c:982-997 | computes the step function; the recursion through the terminate signal ends |
| FrameLoopCode.Compositor.FinishFrameTasks | src/compositor/output.c:218-237 | computes the step function |
| FrameLoopCode.Compositor.IdleTimer | src/compositor/output.c:312-393 | computes the step function, the frame that ends inside the swap and the swap that fails included, and says whether it drew |
| FrameLoopCode.Compositor.FinishFrame | src/compositor/output.c:402-432 | computes the step function |
| FrameLoopCode.Compositor.LeaveTty | src/compositor/compositor.c:245-265 | computes the step function |
| FrameLoopCode.Compositor.RespondTtyActivate | src/compositor/compositor.c:267-275 | computes the step function |
| FrameLoopCode.Compositor.ActivateEvent | src/compositor/compositor.c:277-296 | computes the step function |
| FrameLoopCode.Compositor.UpdateOutputs | src/platform/backend/drm.c:557-594 | outputs that are gone are terminated and new ones added, one after the other |
| FrameLoopCode.Compositor.ActiveOutput | src/compositor/compositor.c:422-442 | computes the step function |
| FrameLoopCode.Compositor.DropOutput | src/compositor/compositor.c:476-502 | computes the step function |
| FrameLoopCode.Compositor.Terminate | src/compositor/compositor.c:669-689 | computes the step function |
| FrameLoopCode.Compositor.Add | src/compositor/compositor.c:411-474 | computes the step function |
| FrameLoopCode.Compositor.IdleVtSwitch | src/compositor/compositor.c:225-233 | computes the step function |
| Registry.RunsStayBijective | src/resources/resources.c:196-226 | after any run of creates, failed constructors and releases, number to element and element to number are inverse, under the name of the element's source and no other |
| Registry.DeadStaysDead | src/resources/resources.c:333-342 | a number that is not live resolves to nothing until it is issued again |
| Registry.ReleaseIsExact | src/resources/resources.c:148-194 | a release makes exactly the element and what is nested in it, at any depth, stop resolving; every other lookup answers as before |
| Registry.SourceReleaseIsExact | src/resources/resources.c:292-315 | the same for a whole source |
| Registry.UnderIsNested | src/resources/resources.c:148-194 | what dies with an element is the element and what is within the sources in it |
| Registry.WithinIsUnder | src/resources/resources.c:292-315 | releasing the elements of a source one after the other, over both pools, releases all that is within it, however much each release takes along |
| RegistryCode.Pools.Create | src/resources/resources.c:97-146 | a created element is registered with its back-pointer, and any failure, the constructor's included, leaves the tables as they were |
| RegistryCode.CreatedUndone | src/resources/resources.c:125-145 | releasing a just created element restores the tables |
| RegistryCode.Pools.Release | src/resources/resources.c:148-194 | the recursion through destructors terminates, takes exactly what is below the number and runs each destructor once |
| RegistryCode.Pools.Destroy | src/resources/resources.c:148-194 | the same for a live element, whose own slot goes last |
| RegistryCode.Pools.ReleaseSource | src/resources/resources.c:292-315 | takes exactly what is within the source, each destructor once, and leaves its pool empty |
| RegistryCode.Pools.InitSource | src/resources/resources.c:280-290 | adds a source, nested or not, and keeps the tables in order |
| ReleaseGraph.ReleasesReachable | src/resources/resources.c:148-194 | for destructors that release any handles whatever: what goes is exactly what can be reached through live handles, each handle once, and after everything its destructor releases |
| ReleaseGraph.ReentersExactly | src/resources/resources.c:148-194 | a destructor is entered for a handle that is being destroyed iff some live handle that the releases reach leads back to itself |
| ReleaseGraph.TypedNeverReenters | src/resources/types/surface.c:433-455 | it never is if surfaces release only views and plain handles, and views only plain ones |
| ReleaseGraph.Pool.Destroy | src/resources/resources.c:148-194 | the recursion through destructors terminates and computes the function: the destructor runs first, while the handle still resolves |
| ReleaseGraph.Pool.Destructor | src/resources/resources.c:292-315 | releases handles one after the other, with whatever has gone already passed over |
| Registry.NewSourceIsNested | src/resources/resources.c:280-290 | an element made in a new source dies with itself and with whatever the element around the source dies with, and with nothing else |
| Registry.NewSourceResolves | src/resources/resources.c:280-290 | it resolves under the name of that source alone |
| SurfaceTree.ReparentedConsistent | src/resources/types/surface.c:391-422 | every surface stays in its parent's list exactly once and in no other |
| SurfaceTree.ReparentedExactly | src/resources/types/surface.c:391-422 | the parent a surface has already is no change at all; a new one lists it before its other children, the old one no longer does, and no other list changes |
| SurfaceTree.ReparentedAcyclicIff | src/compositor/compositor.c:134-155 | a new parent keeps the tree acyclic iff it is not the surface itself or below it |
| SurfaceTree.CycleExample | src/compositor/compositor.c:144 | two requests that pass the self-parenting check and make a cycle |
| SurfaceTree.MovedIsRestacked | src/compositor/compositor.c:25-53 | restacking keeps the order of the others and moves one surface next to its sibling in the list: right before it for offset 0, which is place_above, right behind it for offset 1, which is place_below |
| SurfaceTree.MovedPastItself | src/compositor/compositor.c:25-53 | placed above itself (offset 0) a surface stays, placed below itself (offset 1) it changes places with the one behind it |
| SurfaceTree.DestroyEffect | src/resources/types/surface.c:433-455 | after a destruction no list and no parent field mentions the dead surface, its children are parentless, and the rest is as before |
| SurfaceTree.Compositor.CreateSurface | src/resources/types/surface.c:464-490 | a new surface has no parent and an empty list |
| SurfaceTree.Compositor.GetSubsurface | src/compositor/compositor.c:134-155 | refuses exactly self-parenting |
| SurfaceTree.Compositor.SetParent | src/resources/types/surface.c:391-422 | leaves the old list and enters the new one at the front |
| SurfaceTree.Compositor.Restack | src/compositor/compositor.c:25-53 | a sibling that is not in the list changes nothing; otherwise the list becomes the moved one |
| SurfaceTree.Compositor.Orphan | src/compositor/compositor.c:391-405 | every child of the destroyed surface, and no other, becomes parentless |
| SurfaceTree.Compositor.Destroy | src/resources/types/surface.c:433-455 | none of the children dies with the surface |
| HitTest.Find | src/compositor/seat/pointer.c:85-117 | the recursion with the shared offset finds the first surface in post-order whose absolute rectangle contains the point, leaves its absolute origin, and restores the offset on a miss |
| HitTest.SurfaceUnderPointer | src/compositor/seat/pointer.c:119-158 | the topmost shown view that has the pixel, in a subsurface or in its own visible area, decides: the answer is its first subsurface with the pixel, with its origin, and only without one its own surface; a miss leaves no surface |
| HitTest.AllThatStandIsTested | src/compositor/seat/pointer.c:85-117 | exactly the subsurfaces that resolve are tested, at any depth, each at the sum of the offsets on the way to it |
| HitTest.FirstAppend | src/compositor/seat/pointer.c:85-117 | the first hit of two lists in a row, which is why the early return is right |
| HitTest.HitIsTopmostExactly | src/compositor/seat/pointer.c:85-117 | the subsurface that is hit is the last in the order of drawing that has the pixel iff nowhere in the tree two siblings, with all below them, both have it |
| HitTest.PaintedWhereTestedExactly | src/compositor/output.c:239-279 | without buffer offsets and rounding, every subsurface is drawn where it is tested iff those with subsurfaces of their own sit at the origin of their parents |
| HitTest.HitIsSeenExactly | src/compositor/output.c:255-279 | then the one that is hit is the one that is seen iff no two siblings compete for the pixel |
| HitTest.NestedExample | src/compositor/output.c:266-271 | a nested subsurface that is hit where the outer one is seen |
| HitTest.ContainsPixel | include/wlc/geometry.h:99-105 | containment of a 1x1 rectangle is membership of its pixel |
| FrameCallbacks.EveryRunConserves | src/resources/types/surface.c:53-56 | over every run each callback of a living surface is in exactly one of pending, committed, one output's queue and answered, and in none of them twice; it is live until it is answered |
| FrameCallbacks.StepInv | src/extended/wlc-render.c:77-90 | requests, commits, drawing, flushing, answering, creation and destruction all keep that |
| FrameCallbacks.MovedPlaced | src/compositor/output.c:255-279 | moving a list of callbacks from one place to another leaves each callback in one place |
| FrameCallbacksTrees.TreeIsCollected | src/compositor/output.c:255-279 | drawing or flushing a tree moves the committed callbacks of each of its surfaces, at any depth, and of no other, behind what the output's queue held |
| FrameCallbacksTrees.TreeIsQueuedInOrder | src/compositor/output.c:264-278 | drawing queues all below a subsurface before its parent and before all below later siblings; flushing queues a surface before all below it, and siblings in order too |
| FrameCallbacksTrees.TreeIsCommitted | src/resources/types/surface.c:199-219 | a commit moves the pending callbacks of exactly the surfaces reached through subsurfaces that commit with their parent |
| FrameCallbacksOrder.AnsweredInOrder | src/compositor/output.c:372-381 | over every run in which a surface is collected only into the queue where its other callbacks wait, its answers are a prefix of its requests |
| FrameCallbacksOrder.CollectKeepsOrderExactly | src/compositor/output.c:275-279 | when the output that collects a surface answers next, the answers stay in order iff nothing of the surface waits at another output, or it has nothing committed |
| FrameCallbacksOrder.MovedSurfaceOvertakes | src/compositor/output.c:463-476 | a run with two outputs in which a later callback is answered first |
| FrameCallbacksCode.Compositor.Create | src/resources/types/surface.c:464-490 | a new surface has no callbacks |
| FrameCallbacksCode.Compositor.Destroy | src/resources/types/surface.c:433-455 | the callbacks of a surface that dies are released wherever they are; queues keep their dead numbers |
| FrameCallbacksCode.Compositor.Frame | src/resources/types/surface.c:148-162 | a request ends up pending |
| FrameCallbacksCode.Compositor.CommitState | src/resources/types/surface.c:53-56 | the pending callbacks follow the committed ones, in order |
| FrameCallbacksCode.Compositor.CommitTree | src/resources/types/surface.c:199-219 | the surface and the subsurfaces that commit with it, parents first |
| FrameCallbacksCode.Compositor.Render | src/compositor/output.c:255-279 | callbacks of a tree drawn on an output join its queue in post-order |
| FrameCallbacksCode.Compositor.Flush | src/extended/wlc-render.c:77-90 | callbacks of a flushed tree join the output's queue parents first |
| FrameCallbacksCode.Compositor.Answer | src/compositor/output.c:372-381 | one output's queue is answered front to back, dead callbacks are passed over, and it ends empty; the other queues stay |
| Buffers.RunsKeepCounts | src/resources/types/buffer.c:6-47 | over every history in which no buffer serves two surfaces, the count of a live buffer is the number of states naming it, it is positive, and no state names a dead buffer |
| Buffers.AttachExactly | src/resources/types/surface.c:117-127 | an attach makes the buffer pending and releases the one it replaces iff nothing else names it |
| Buffers.CommitShowsLastExactly | src/resources/types/surface.c:108-133 | after any attaches to a surface a commit shows what was attached last iff that was a buffer, or nothing but NULL was attached and nothing was pending |
| Buffers.AttachRefusedExactly | src/resources/types/surface.c:117-133 | an attach does nothing at all iff it needs a new resource and that cannot be made |
| Buffers.DeadIsNotShown | src/resources/types/surface.c:37-45 | whatever was shared, a commit does not show a buffer that is dead |
| Buffers.Lifecycle | src/resources/types/buffer.c:6-47 | a run from the making of a surface to its end, with two buffers shown one after the other and each released once |
| Buffers.CommitExactly | src/resources/types/surface.c:73-79 | a commit moves the pending buffer over and releases exactly the committed one it replaces |
| Buffers.SetBufferReleases | src/resources/types/surface.c:37-45 | replacing one name releases, with an event, the old buffer iff that was its last name, and nothing else |
| Buffers.ClientDestroyExactly | src/resources/types/buffer.c:28-47 | a buffer destroyed by its client is forgotten by every state at once, without an event |
| Buffers.SurfaceDestroyExactly | src/resources/types/surface.c:433-455 | a dying surface lets go of both states, releasing each of its buffers once, the committed one first; none of its buffers is left |
| Buffers.AttachKeepsExactly | src/resources/types/surface.c:117-127 | an attach keeps the counts right iff the buffer serves no other surface |
| Buffers.SharedBufferDangles | src/resources/types/buffer.c:34-40 | a shared buffer leaves a state naming it after its death |
| Buffers.Compositor.StateSetBuffer | src/resources/types/surface.c:37-45 | computes the step function |
| Buffers.Compositor.CreateSurface | src/resources/types/surface.c:464-490 | a new surface names no buffer |
| Buffers.Compositor.SurfaceAttach | src/resources/types/surface.c:108-133 | computes the step function; NULL leaves the pending buffer, and a resource that cannot be made leaves everything |
| Buffers.Compositor.CommitState | src/resources/types/surface.c:73-79 | computes the step function |
| Buffers.Compositor.ReleaseSurface | src/resources/types/surface.c:93-106 | computes the step function |
| Buffers.Compositor.DisposeBuffer | src/resources/types/buffer.c:6-16 | computes the step function |
| Buffers.Compositor.DestroyedByClient | src/resources/resources.c:403-416 | computes the step function |
| Buffers.Compositor.UseBuffer | src/resources/types/buffer.c:18-26 | computes the step function, with the 16-bit counter |
| Buffers.Compositor.ReleaseBuffer | src/resources/types/buffer.c:28-47 | computes the step function |
| DrmFlip.RotationIsSafe | src/platform/backend/drm.c:62-98 | over every run what is on screen or queued is locked, at most two buffers are, each lock is given back once unless a slot holds it, and the not-flipping assertion holds |
| DrmFlip.RepaintKeepsExactly | src/platform/backend/drm.c:197-235 | a repaint, its failures included, keeps that iff it does not set the mode to the new buffer and then fail to flip |
| DrmFlip.FirstFlipFails | src/platform/backend/drm.c:212-234 | the first frame of a new surface, with a mode set that succeeds and a flip that fails, gives back the buffer on screen |
| DrmFlip.FlipReplaces | src/platform/backend/drm.c:77-98 | a flip that completes leaves exactly the new buffer locked and on screen |
| DrmFlip.RepaintFails | src/platform/backend/drm.c:112-145 | a flip that fails at any point gives back what it locked and registered, and only that |
| DrmFlip.FailedFlipFreezes | src/compositor/output.c:305-310 | after a failed flip no event changes anything any more |
| DrmFlip.SurfaceReleaseLeavesShown | src/platform/backend/drm.c:262-268 | between frames, releasing the surface removes no framebuffer |
| DrmFlip.WakingSetsTheMode | src/platform/backend/drm.c:237-247 | after a sleep the next frame sets the mode again, and is on screen before its flip completes |
| DrmFlip.FramesGoOn | src/platform/backend/drm.c:77-98 | a good frame and its completion at the front of a run leave only the new buffer locked and shown |
| DrmFlip.AsleepIsDark | src/platform/backend/drm.c:237-247 | asleep between frames the screen is dark, and every lock stays |
| DrmFlip.FlipGivesBackFirst | src/platform/backend/drm.c:197-212 | a flip gives back what its slot held, even if nothing comes of it |
| DrmFlip.FlipMeetsFlip | src/platform/backend/drm.c:197-203 | a flip during another one is a fault and does nothing else |
| DrmFlip.FailedCreateEmpties | src/platform/backend/drm.c:112-145 | whichever call fails, the slot ends empty and no buffer stays locked for it |
| DrmFlip.ReleaseInFlight | src/platform/backend/drm.c:262-268 | released during a flight, the surface gives back the buffer that is queued |
| DrmFlip.ReleaseAfterFirstFrame | src/platform/backend/drm.c:262-268 | one good frame and a release, with the framebuffer still registered |
| DrmFlip.DrmSurface.Flip | src/platform/backend/drm.c:197-235 | computes the step function and succeeds iff every foreign call does |
| DrmFlip.DrmSurface.CreateGbmFb | src/platform/backend/drm.c:112-145 | computes the step function |
| DrmFlip.DrmSurface.ReleaseSlot | src/platform/backend/drm.c:62-75 | computes the step function |
| DrmFlip.DrmSurface.PageFlipHandler | src/platform/backend/drm.c:77-98 | computes the step function |
| FdTable.HistoriesStayInOrder | src/session/fd.c:158-304 | over every history of opens, closes, deactivations and activations without a second open of an open device, the descriptors open are exactly the live slots', and no live slot has an earlier slot, stale or live, with its device number |
| FdTable.CloseExactly | src/session/fd.c:222-243 | closing closes the descriptor opened for that device, and nobody's when it is not open |
| FdTable.OpenKeepsExactly | src/session/fd.c:158-220 | an open keeps the table in order iff it does not open an open device |
| FdTable.OpenThenClose | src/session/fd.c:158-243 | closing what was just opened gives its descriptor back, drops it as master and leaves every live slot as it was |
| FdTable.OpenThenLeave | src/session/fd.c:206-209 | when the terminal is left, a device just opened stays open iff it was opened as a DRM one |
| FdTable.Session | src/session/fd.c:158-304 | a DRM device stays open while the terminal is away, is master again after it, and neither once it is closed |
| FdTable.DeactivateExactly | src/session/fd.c:269-304 | success leaves no DRM master and no input; no input is lost before every master was dropped; DRM slots are kept |
| FdTable.ReturnExactly | src/session/fd.c:245-304 | leaving the terminal and coming back, both without a failure, ends with every DRM descriptor master, every input closed and the DRM slots as they were |
| FdTable.DoubleOpenLeaks | src/session/fd.c:222-243 | two opens and two closes of a device leave a descriptor open |
| FdTable.Child.FdOpen | src/session/fd.c:158-220 | the first free slot is used, and a full table or a refusal changes nothing |
| FdTable.Child.FdClose | src/session/fd.c:222-243 | the first slot with the device number is closed |
| FdTable.Child.DropMasters | src/session/fd.c:271-281 | masters are dropped in slot order up to the first failure |
| FdTable.Child.SetMasters | src/session/fd.c:245-265 | masters are set in slot order up to the first failure |
| FdTable.Child.EnterTerminal | src/session/fd.c:245-267 | computes the step function; it succeeds iff no call failed and the terminal agrees |
| FdTable.Child.RevokeInputs | src/session/fd.c:283-301 | inputs are closed in slot order up to the first failure |
| FdTable.Child.LeaveTerminal | src/session/fd.c:269-304 | computes the step function; it succeeds iff no call failed and the terminal agrees |
| KeyRepeat.RunsHoldWhatIsPressed | src/compositor/seat/keyboard.c:60-104 | however often the timer fires or the focus changes, and whatever the modifiers and the application's answers at each event, the keyboard holds exactly the keys pressed and not released, without duplicates and in step with xkb |
| KeyRepeat.RepeatKeepsHeldKeys | src/compositor/seat/keyboard.c:60-104 | the callback injects one press per repeating key, in order, and none for others; keys not taken reach the client; the repeat goes on iff the last one was taken, at the rate iff it was the only one |
| KeyRepeat.ClientHearsExactly | src/compositor/seat/seat.c:110-137 | over every run the client hears of each key exactly its events in order, pressed or released as they came, but for presses while it is held and what is taken or switches the terminal; a press at each repeat, and a release when the focus goes |
| KeyRepeat.KeyDecidesRepeat | src/compositor/seat/keyboard.c:347-375 | a key event starts a repeat iff it presses a repeating key that the application takes, and any other one stops the timer, the press of a held key excepted |
| KeyRepeat.KeymaplessNeverRepeats | src/compositor/seat/keyboard.c:77-104 | without a keymap nothing starts a repeat, and the timer forgets the held keys |
| KeyRepeat.HandleKeyInv | src/compositor/seat/seat.c:110-137 | a key event keeps held keys and xkb in step; a repeated press changes nothing |
| KeyRepeat.FocusGetsHeldKeysLater | src/compositor/seat/keyboard.c:179-246 | a new focus hears nothing of the held keys that repeat until the timer fires, and then each that the application does not take; the timer runs iff the client has a keyboard and such a key is held, or a repeat was under way |
| KeyRepeat.TwoTakenKeysUseTheDelay | src/compositor/seat/keyboard.c:106-125 | two taken keys restart the initial delay |
| KeyRepeat.InjectPhase | src/compositor/seat/keyboard.c:106-125 | how the repeat flags and the timer go through the re-entrant presses |
| KeyRepeat.SeatKeyboard.HoldKey | src/compositor/seat/keyboard.c:12-36 | a pressed key is appended once, a released one removed wherever it is |
| KeyRepeat.SeatKeyboard.UpdateKey | src/compositor/seat/keyboard.c:363-375 | computes the step function |
| KeyRepeat.SeatKeyboard.SeatHandleKey | src/compositor/seat/seat.c:110-137 | computes the step function |
| KeyRepeat.SeatKeyboard.FocusOn | src/compositor/seat/keyboard.c:393-408 | computes the step function |
| KeyRepeat.SeatKeyboard.SendReleases | src/compositor/seat/keyboard.c:38-56 | one release for each held key, in order |
| KeyRepeat.SeatKeyboard.RepeatTimer | src/compositor/seat/keyboard.c:60-104 | computes the step function, key handler re-entered inside the loop |
| Relayout.TiledViewsPartition | example/example.c:86-131 | with a tiled view on the output, each of its pixels lies in exactly one tiled view |
| Relayout.TilesPartition | example/example.c:90-106 | for any size and number of tiles, the tiles partition the output: odd width, remainder height and odd last tile included |
| Relayout.TilesInOrder | example/example.c:90-106 | the tiles fill the output in reading order from the left top corner, two to a row, the last odd one across, the first row with the height left over |
| Relayout.PlacedExactly | example/example.c:94-131 | each tiled view ends on the tile of its rank, each anchored one at its anchor relative to its parent's final place, if the parent comes before it, with the size it asked for or the one it had |
| Relayout.Compositor.Relayout | example/example.c:73-132 | the loop with its running row, side and rank places every view so |

## Left out

- Culling.Output.GetVisibleViews: the commit of each view's pending state and the hiding of X11 windows, side effects of the scan, are not modelled; the rectangle of `wlc_view_get_opaque` is an input.
- Culling.Output.ScanView: leaves out the same two side effects.
- Culling.Output.SetResolution: allocation failure, the notification of clients and the repaint it schedules are not modelled.
- Pairing.Compositor.SetSurface: mapping and unmapping are modelled as the view's `created` flag only; commits and requests they send to the client, and the application's refusal of a view, are not.
- Pairing.Compositor.AttachToView: leaves out the same.
- FrameLoopSafety.EveryRunIsSafe: a repeated request to terminate comes when no surface is held, a swap does not fail on an output whose timer has outlived its sleep, and a surface is not set directly on such an output; the code sets surfaces only in `add_output`, which does not need that. `FrameLoopProgress.SecondTerminateExactly` and `FrameLoopDead.LapseKeepsExactly` show what happens otherwise.
- FrameLoopSafety.StepOk: has the same three conditions.
- FrameLoopCode.Compositor.IdleTimer: an output that holds a surface has an active mode, which `wlc_output_set_information` asserts; drawing itself is in `Culling` and `FrameCallbacks`.
- FrameLoopCode.Compositor.SetBackendSurface: which client surfaces attach again is an input, as is whether any does.
- Registry.ReleaseIsExact: destructors that release handles outside their own nested sources, such as a surface's view, are in `ReleaseGraph` instead.
- Registry.SourceReleaseIsExact: leaves out the same destructors.
- RegistryCode.Pools.Release: leaves out the same destructors.
- RegistryCode.Pools.Destroy: leaves out the same destructors.
- RegistryCode.Pools.ReleaseSource: leaves out the same destructors.
- ReleaseGraph.ReleasesReachable: what a destructor releases is fixed before the release begins, though the code reads it from the element when its destructor runs.
- SurfaceTree.Compositor.SetParent: the attachment to the parent's output and the copy of the parent's view are not modelled.
- SurfaceTree.Compositor.Restack: the surface must have a parent, because the code follows it unchecked; placing the last surface below itself inserts past the end of the container, whose answer to that is not part of this model.
- SurfaceTree.Compositor.Destroy: the walk that releases the listed children is not in the body, because its list is empty by then.
- HitTest.PaintedWhereTestedExactly: the offset of an attached buffer, which only drawing adds, and the rounding of scaled offsets are excluded; the view's own surface has no position of its own.
- FrameCallbacks.EveryRunConserves: a callback or surface created anew counts as new, though the code names both by slots of its own resource pool, which are used again; a slot reused while its old number still waits in a queue is not modelled.
- Buffers.RunsKeepCounts: no buffer serves two surfaces.
- DrmFlip.RotationIsSafe: the EGLDevice variant and the store to a surface replaced inside the completion handler are not modelled.
- FdTable.HistoriesStayInOrder: path filtering appears as a refusal.
- KeyRepeat.RunsHoldWhatIsPressed: the keyboard has a keymap, as `wlc_keyboard` asserts and nothing takes it away, so the branch of the callback without one is never taken; one keyboard of the focused client stands for all of them, and the application's handler does not re-enter the seat.
- Relayout.PlacedExactly: a parent that is placed after its child is not followed, as in the code.
- Pool relocation by address and the lifetime of C pointers: pools are maps with stable indices.
- The containers of the chck library: iterated pools are sequences, pools are maps; running out of memory appears only where the code undoes something.
- Float scaling in view bounds, opaque regions and coordinate transforms: the resulting integer rectangles are inputs.
- The effective sync mode of subsurfaces, whose cached flag the code does not keep equal to "some ancestor is synchronized".
- Stacking of subsurfaces relative to another view, which the code ignores.
- EGL, GLES2, GBM, libinput, udev, D-Bus, X11, sockets and signals: foreign calls.
- Clipboard, window properties, positioners, logging, getters and setters, which would only add easy members.
