# Webcam discovery service, modelled in Dafny

This project models the discovery service of the webcam-capture library, `WebcamDiscoveryService`.
The service keeps the *roster*: the list of `Webcam` objects for the devices the driver reports.
It works out the roster the first time someone asks for it. It then polls the driver and diffs each
new enumeration against the roster, by device name. Discovery listeners hear a REMOVED event for
each vanished device and an ADDED event for each new one. Removed webcams are disposed. On shutdown
the service disposes every webcam and empties the roster.

The model has six modules:

- `Wrappers`: `Option` and `Result`.
- `Sequences`: distinctness, subsequences and their lemmas.
- `Devices`: driver devices and the differ.
  - The differ is the function `Reduction`.
  - The method `Reduce` implements it with the source's nested scan-and-remove loops.
  - Lemmas state what the reduction computes: an order-preserving multiset difference on names.
- `Webcams`: the `Webcam` class (a `const` device), `toWebcams`/`getDevices`, and the name scans
  that map leftover devices back to webcams.
- `Events`: events and listeners, and the effect log.
  - Listener dispatch is a function from an event and a listener snapshot to effects.
  - Traces for the removal phase, the addition phase and the shutdown disposal loop, with lemmas
    about what each listener receives and what gets disposed.
- `Discovery`: the service class.
  - The class has the roster (`Option<seq<Webcam>>`, `None` for Java's `null`), the running
    flag, and an append-only `log` of external effects.
  - External effects are driver enumerations, roster publications, deallocator registrations,
    listener calls and their caught exceptions, and disposals.
  - Its methods are `getWebcams`, one polling cycle, the run loop over a finite schedule,
    `setCurrentWebcams`, the notify methods, `stop` and `shutdown`.
  - Lemmas about one cycle's effects tell, per listener, which events it receives, which webcams
    are disposed, and that devices still present are left alone.

The things the service gets from outside are parameters:

- the driver's enumeration (a `seq<Device>`);
- the outcome of the bounded-time first discovery (`Enumeration`: done with a device list, not done
  by the deadline, failed);
- the listener snapshot, where each listener records whether it throws;
- whether the termination-signal hook is on (`handleTermSignal`).

The invariant `Valid()` holds across all operations:

- the roster has no repeated webcam;
- no disposed webcam is on it.

## Model

| member | source | states |
|---|---|---|
| `Devices.FirstNamed` | webcam-capture/src/main/java/com/github/sarxos/webcam/WebcamDiscoveryService.java:185-197 | the index found is the first device with the given name; None exactly when no device has it |
| `Devices.ScanNamed` | webcam-capture/src/main/java/com/github/sarxos/webcam/WebcamDiscoveryService.java:183-197 | the inner scan finds a device exactly when one has the name, and then stops at the first such device |
| `Devices.Reduce` | webcam-capture/src/main/java/com/github/sarxos/webcam/WebcamDiscoveryService.java:169-198 | the nested loops compute `Reduction`: equal numbers removed from each list, both leftovers subsequences of their inputs, and no name left on both sides (the multiset reading is `ReductionCancelsNames`) |
| `Devices.ReductionBalance` | webcam-capture/src/main/java/com/github/sarxos/webcam/WebcamDiscoveryService.java:180-198 | each match removes one device from each list, so both lists shrink by the same count |
| `Devices.ReductionKeepsOrder` | webcam-capture/src/main/java/com/github/sarxos/webcam/WebcamDiscoveryService.java:180-198 | what is left of each list keeps its original order (iterator removal) |
| `Devices.ReductionCancelsNames` | webcam-capture/src/main/java/com/github/sarxos/webcam/WebcamDiscoveryService.java:180-198 | the reduction is multiset-style: leftover old names = old names minus new names, and vice versa, counting duplicates |
| `Devices.ReductionDisjoint` | webcam-capture/src/main/java/com/github/sarxos/webcam/WebcamDiscoveryService.java:180-198 | no name survives in both leftover lists |
| `Devices.ReductionLeftoversAreAbsent` | webcam-capture/src/main/java/com/github/sarxos/webcam/WebcamDiscoveryService.java:180-198 | with unique names on a side, its leftover devices' names do not occur on the other side at all |
| `Webcams.ToWebcams` | webcam-capture/src/main/java/com/github/sarxos/webcam/WebcamDiscoveryService.java:60-66 | one new, distinct webcam per device, wrapping the devices in order |
| `Webcams.GetDevices` | webcam-capture/src/main/java/com/github/sarxos/webcam/WebcamDiscoveryService.java:73-79 | the device of every webcam, in roster order |
| `Webcams.RosterRoundTrip` | webcam-capture/src/main/java/com/github/sarxos/webcam/WebcamDiscoveryService.java:60-79 | reading the devices back from a freshly built roster gives the original list |
| `Webcams.FirstWebcamNamed` | webcam-capture/src/main/java/com/github/sarxos/webcam/WebcamDiscoveryService.java:206-211 | the scan stops at the first webcam whose device has the name, or finds none; agrees with `FirstNamed` on the roster's devices |
| `Webcams.MatchesAreFromRoster` | webcam-capture/src/main/java/com/github/sarxos/webcam/WebcamDiscoveryService.java:203-212 | every collected webcam is on the roster and carries the name of one of the devices |
| `Webcams.MatchesAreComplete` | webcam-capture/src/main/java/com/github/sarxos/webcam/WebcamDiscoveryService.java:203-212 | when every device's name is on the roster, one webcam per device is collected, the first of that name |
| `Events.CallProjections` | webcam-capture/src/main/java/com/github/sarxos/webcam/WebcamDiscoveryService.java:250-256 | one guarded call delivers the event to that listener only and disposes nothing |
| `Events.DispatchEffects` | webcam-capture/src/main/java/com/github/sarxos/webcam/WebcamDiscoveryService.java:248-268 | every effect of a dispatch is a call of a snapshot listener with that very event |
| `Events.DispatchReachesEveryListener` | webcam-capture/src/main/java/com/github/sarxos/webcam/WebcamDiscoveryService.java:248-268 | the event reaches the snapshot's listeners in array order, all of them, even after one throws |
| `Events.DispatchDisposesNothing` | webcam-capture/src/main/java/com/github/sarxos/webcam/WebcamDiscoveryService.java:248-268 | dispatching disposes no webcam |
| `Events.DispatchReceivedOnce` | webcam-capture/src/main/java/com/github/sarxos/webcam/WebcamDiscoveryService.java:248-268 | in a snapshot without repetitions each listener receives the event exactly once, others never |
| `Events.DispatchReceivesOnly` | webcam-capture/src/main/java/com/github/sarxos/webcam/WebcamDiscoveryService.java:248-268 | a listener receives nothing but the dispatched event |
| `Events.GoneTraceNotifies` | webcam-capture/src/main/java/com/github/sarxos/webcam/WebcamDiscoveryService.java:216-219 | removal handling gives each snapshot listener one REMOVED event per webcam, in order |
| `Events.GoneTraceDisposes` | webcam-capture/src/main/java/com/github/sarxos/webcam/WebcamDiscoveryService.java:216-219 | removal handling disposes exactly the notified webcams, in order |
| `Events.GoneTraceDisposesAfterNotifying` | webcam-capture/src/main/java/com/github/sarxos/webcam/WebcamDiscoveryService.java:216-219 | every delivery in removal handling is a REMOVED event, and the disposal of its webcam comes after it |
| `Events.GoneTraceReceivesOnly` | webcam-capture/src/main/java/com/github/sarxos/webcam/WebcamDiscoveryService.java:216-219 | removal handling delivers only REMOVED events for its own webcams |
| `Events.FoundTraceNotifies` | webcam-capture/src/main/java/com/github/sarxos/webcam/WebcamDiscoveryService.java:227-234 | addition handling gives each snapshot listener one ADDED event per webcam, in order |
| `Events.FoundTraceDisposesNothing` | webcam-capture/src/main/java/com/github/sarxos/webcam/WebcamDiscoveryService.java:227-234 | addition handling disposes nothing |
| `Events.FoundTraceReceivesOnly` | webcam-capture/src/main/java/com/github/sarxos/webcam/WebcamDiscoveryService.java:227-234 | addition handling delivers only ADDED events for its own webcams |
| `Events.DisposalTraceDisposesRoster` | webcam-capture/src/main/java/com/github/sarxos/webcam/WebcamDiscoveryService.java:328-330 | shutdown's loop disposes exactly the roster, in order |
| `Events.DisposalTraceNotifiesNoOne` | webcam-capture/src/main/java/com/github/sarxos/webcam/WebcamDiscoveryService.java:328-330 | shutdown's loop notifies no listener |
| `Events.DisposalTraceDisposesEachOnce` | webcam-capture/src/main/java/com/github/sarxos/webcam/WebcamDiscoveryService.java:328-330 | on a roster without repetitions every webcam is disposed exactly once |
| `Discovery.DiscoveryNotifies` | webcam-capture/src/main/java/com/github/sarxos/webcam/WebcamDiscoveryService.java:118-125 | after the first discovery each snapshot listener receives one ADDED event per roster webcam, in roster order |
| `Discovery.DiscoveryTraceDisposesNothing` | webcam-capture/src/main/java/com/github/sarxos/webcam/WebcamDiscoveryService.java:114-125 | the first discovery disposes nothing |
| `Discovery.PublishTraceDisposesNothing` | webcam-capture/src/main/java/com/github/sarxos/webcam/WebcamDiscoveryService.java:240-246 | replacing the roster disposes nothing |
| `Discovery.ReconcilePublishesFirst` | webcam-capture/src/main/java/com/github/sarxos/webcam/WebcamDiscoveryService.java:200-235 | a cycle has effects exactly when the reduction leaves something over, and then the first effect is the publication of a new roster: the roster is replaced before any listener is told |
| `Discovery.ReconcileNotifies` | webcam-capture/src/main/java/com/github/sarxos/webcam/WebcamDiscoveryService.java:200-235 | each snapshot listener receives REMOVED for the old webcam of every vanished device, then ADDED for the new webcam of every appeared device, in list order; a listener outside the snapshot receives nothing |
| `Discovery.ReconcileDisposes` | webcam-capture/src/main/java/com/github/sarxos/webcam/WebcamDiscoveryService.java:200-235 | a cycle disposes exactly the old-roster webcams of the vanished devices, in order |
| `Discovery.ReconcileReceivesOnly` | webcam-capture/src/main/java/com/github/sarxos/webcam/WebcamDiscoveryService.java:200-235 | every event a cycle delivers is a REMOVED event for a vanished device's webcam or an ADDED event for an appeared device's webcam |
| `Discovery.ReconcileRemovesEveryVanished` | webcam-capture/src/main/java/com/github/sarxos/webcam/WebcamDiscoveryService.java:200-212 | every vanished device gets exactly one webcam, the first on the old roster with its name |
| `Discovery.ReconcileAddsEveryAppeared` | webcam-capture/src/main/java/com/github/sarxos/webcam/WebcamDiscoveryService.java:222-234 | every appeared device gets exactly one webcam, the first with its name on the roster built from the new enumeration |
| `Discovery.ReconcileSparesSurvivors` | webcam-capture/src/main/java/com/github/sarxos/webcam/WebcamDiscoveryService.java:169-220 | with unique names on the roster, a webcam whose device is still reported is neither disposed nor announced as REMOVED |
| `Discovery.ReconcileAddsOnlyNewNames` | webcam-capture/src/main/java/com/github/sarxos/webcam/WebcamDiscoveryService.java:169-234 | with unique names in the new enumeration, no ADDED event is sent for a name the old roster had |
| `Discovery.ReconcileQuietWhenUnchanged` | webcam-capture/src/main/java/com/github/sarxos/webcam/WebcamDiscoveryService.java:169-235 | when the new enumeration has the same names as the roster, the cycle has no effects and keeps the same webcam objects |
| `Discovery.ReplacingOneDeviceReduces` | webcam-capture/src/main/java/com/github/sarxos/webcam/WebcamDiscoveryService.java:169-198 | roster {A, X} against enumeration {A, Y} leaves X over on the old side and Y on the new side |
| `Discovery.ReplacingOneDevice` | webcam-capture/src/main/java/com/github/sarxos/webcam/WebcamDiscoveryService.java:169-235 | for roster {A, X} and enumeration {A, Y}: the new roster is {A, Y}; each listener gets REMOVED for X's webcam, then ADDED for the new Y webcam; only X's webcam is disposed |
| `Discovery.MatchingWebcams` | webcam-capture/src/main/java/com/github/sarxos/webcam/WebcamDiscoveryService.java:203-212 | the collected webcams are `Matches` of the leftover old devices against the roster |
| `Discovery.ShutdownDisposesEachOnce` | webcam-capture/src/main/java/com/github/sarxos/webcam/WebcamDiscoveryService.java:328-330 | a roster without repetitions, none of whose webcams was disposed before, has each webcam disposed exactly once over the service's whole log once shutdown's loop has run |
| `Discovery.WebcamDiscoveryService.constructor` | webcam-capture/src/main/java/com/github/sarxos/webcam/WebcamDiscoveryService.java:55-58 | a new service has no roster, is not running and has had no effects |
| `Discovery.WebcamDiscoveryService.SetCurrentWebcams` | webcam-capture/src/main/java/com/github/sarxos/webcam/WebcamDiscoveryService.java:240-246 | the roster becomes new webcams for the devices; the publication, then the deallocator re-registration when the hook is on, is appended to the log |
| `Discovery.WebcamDiscoveryService.NotifyWebcamGone` | webcam-capture/src/main/java/com/github/sarxos/webcam/WebcamDiscoveryService.java:248-257 | the log gains the dispatch of a REMOVED event for the webcam to the snapshot |
| `Discovery.WebcamDiscoveryService.NotifyWebcamFound` | webcam-capture/src/main/java/com/github/sarxos/webcam/WebcamDiscoveryService.java:259-268 | the log gains the dispatch of an ADDED event for the webcam to the snapshot |
| `Discovery.WebcamDiscoveryService.AnnounceFound` | webcam-capture/src/main/java/com/github/sarxos/webcam/WebcamDiscoveryService.java:118-121 | the log gains one ADDED dispatch per roster webcam, in order |
| `Discovery.WebcamDiscoveryService.AnnounceGone` | webcam-capture/src/main/java/com/github/sarxos/webcam/WebcamDiscoveryService.java:216-219 | the log gains, per webcam, a REMOVED dispatch followed by its disposal |
| `Discovery.WebcamDiscoveryService.AnnounceMatch` | webcam-capture/src/main/java/com/github/sarxos/webcam/WebcamDiscoveryService.java:228-233 | the log gains an ADDED dispatch for the first webcam with the device's name, or nothing when there is none |
| `Discovery.WebcamDiscoveryService.AnnounceMatches` | webcam-capture/src/main/java/com/github/sarxos/webcam/WebcamDiscoveryService.java:227-234 | the log gains the ADDED dispatches for the matched webcams of the devices, in device order |
| `Discovery.WebcamDiscoveryService.GetWebcams` | webcam-capture/src/main/java/com/github/sarxos/webcam/WebcamDiscoveryService.java:81-129 | a negative timeout and a missing unit fail with their messages and change nothing; a cached roster is returned unchanged; otherwise one enumeration runs, and it either times out (roster stays unknown), fails, or yields a fresh roster that is published, announced as ADDED to every listener and registered, and then returned |
| `Discovery.WebcamDiscoveryService.HandleRemoved` | webcam-capture/src/main/java/com/github/sarxos/webcam/WebcamDiscoveryService.java:201-220 | the roster becomes new webcams for the new enumeration, then each old-roster webcam of a vanished device is announced REMOVED and disposed; the invariant holds afterwards |
| `Discovery.WebcamDiscoveryService.HandleAdded` | webcam-capture/src/main/java/com/github/sarxos/webcam/WebcamDiscoveryService.java:223-235 | the roster becomes new webcams for the new enumeration, then each appeared device's new webcam is announced ADDED |
| `Discovery.WebcamDiscoveryService.Reconcile` | webcam-capture/src/main/java/com/github/sarxos/webcam/WebcamDiscoveryService.java:169-235 | the effects of the diff and of its removal and addition phases are exactly `ReconcileTrace`; each roster replacement wraps the new enumeration and consists of new webcam objects, those of surviving devices included |
| `Discovery.WebcamDiscoveryService.Cycle` | webcam-capture/src/main/java/com/github/sarxos/webcam/WebcamDiscoveryService.java:149-235 | an empty snapshot does nothing; otherwise the driver is enumerated, the roster is obtained (first discovery if needed, giving new webcams; any failure becomes WebcamError), and the reconciliation follows; every roster it installs consists of new webcam objects |
| `Discovery.WebcamDiscoveryService.Run` | webcam-capture/src/main/java/com/github/sarxos/webcam/WebcamDiscoveryService.java:132-238 | without discovery support nothing happens; otherwise rounds run until one throws (the running flag stays set), a stop is seen, or the schedule ends; a known roster stays known |
| `Discovery.WebcamDiscoveryService.Stop` | webcam-capture/src/main/java/com/github/sarxos/webcam/WebcamDiscoveryService.java:281-283 | the running flag is cleared |
| `Discovery.WebcamDiscoveryService.Shutdown` | webcam-capture/src/main/java/com/github/sarxos/webcam/WebcamDiscoveryService.java:324-337 | the service stops; each roster webcam is disposed in order; the roster becomes empty; the deallocator is unregistered when the hook is on; since no roster webcam was disposed before, each is now disposed exactly once. With no roster the loop dereferences null and nothing is disposed |

## Left out

- Threads and timing are not modelled, and their outcomes are parameters instead:
  - the executor, `Future`, `awaitTermination` and `cancel(true)`;
  - `delay()` and its `Thread.sleep`;
  - the runner thread;
  - the `volatile` visibility of `webcams` and `running`.
- The first discovery's outcome is the `Enumeration` parameter.
  - An interrupted wait and a failed enumeration task are both `Failed`, since both become a WebcamException.
- A task cancelled on timeout may keep running; that is not modelled.
- The `start`/`isRunning` lifecycle and the runner thread are not modelled. `isRunning` is a plain read of the `running` field.
- Discovery.WebcamDiscoveryService.Stop: only clears the running flag; it does not model joining or clearing the runner.
  - Lines 285-287 of `stop` return when a runner exists and otherwise join a null runner.
  - So stopping a service that was never started throws, and so does `shutdown` of such a service, before disposing anything. This is not modelled.
- Discovery.WebcamDiscoveryService.Cycle: the cycle's own enumeration (`driver.getDevices()`, line 157) always yields a device list. In the source a driver that throws there ends `run()` with the running flag still set; the model has no such failure.
- Events.Call: only `Exception` is caught around a listener call (lines 253 and 264). A listener that throws an `Error` escapes the dispatch, skips the remaining listeners and ends the cycle; the model treats every listener failure as caught.
  - A listener's `throws` flag is fixed per listener, so a listener that fails on some events only is not expressible.
- Discovery.WebcamDiscoveryService.Run: models a finite schedule of rounds, not the unbounded do-while loop.
  - `Round.stopped` stands for a concurrent `stop()` observed at the loop test.
  - Its contract states the loop's control flow and the invariant, not the whole log.
- Discovery.WebcamDiscoveryService.Shutdown: models `webcams.clear()` as replacing the roster with an empty one, so the emptying of an unmodifiable view a caller holds does not appear.
  - `shutdown` begins with `stop()`, which throws on a service that was never started (line 290), so in the source such a service disposes nothing. The model's `Shutdown` does not capture that.
  - On a service without a roster the loop at line 328 throws a NullPointerException; the model returns `NullPointer` with nothing disposed.
- Discovery.WebcamDiscoveryService.GetWebcams: the returned list is the roster itself, not a read-only view.
  - The long `timeout` is an unbounded integer and is only compared with zero; its 64-bit range is not modelled.
- In `getWebcams` the listener snapshot after first discovery (line 118) is a second read of the global listener list. The cycle passes it its own snapshot, and the model assumes both reads agree.
- `handleTermSignal` is read from a global for every use in the source; the model fixes it per service.
- A Webcam's own `dispose` (closing the device, its listeners, the deallocator) is one `Disposed` effect.
  - The `Webcam` constructor and device internals are not part of this model.
- The log messages the source writes are not modelled. A listener exception that is caught and logged is the `ListenerFailed` effect.
- The deallocator (`WebcamDeallocator`) and the driver are not part of this model; their calls are log entries.
- `Webcam.getDiscoveryListeners` is not part of this model; the snapshot is a parameter.
