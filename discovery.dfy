/** The discovery service itself (WebcamDiscoveryService.java): cached roster acquisition,
    one polling cycle, roster replacement, listener notification and shutdown. */
module Discovery {
  import opened Wrappers
  import opened Sequences
  import opened Devices
  import opened Webcams
  import opened Events

  datatype TimeUnit = Nanoseconds | Microseconds | Milliseconds | Seconds | Minutes | Hours | Days

  /** Where the one-shot enumeration task stands when getWebcams stops waiting for it. */
  datatype Enumeration =
    | Done(devices: seq<Device>)  // it finished before the deadline with this device list
    | NotDone                     // it was still running at the deadline and is cancelled
    | Failed                      // it threw, or the waiting thread was interrupted

  /** The exceptions the service throws. */
  datatype Error =
    | IllegalArgument(message: string)
    | Timeout(timeout: int)       // TimeoutException; its message quotes the timeout
    | WebcamError                 // WebcamException wrapping the cause
    | NullPointer                 // NullPointerException

  const NegativeTimeout := "Timeout cannot be negative"
  const NullTimeUnit := "Time unit cannot be null!"

  /** Long.MAX_VALUE, the timeout the polling loop waits for the roster with. */
  const LongMaxValue: int := 0x7FFF_FFFF_FFFF_FFFF

  /** What one iteration of the polling loop meets: the listener snapshot, the driver's
      enumeration, the outcome of the first discovery should the roster still be unknown,
      and whether stop() cleared the running flag meanwhile. */
  datatype Round = Round(listeners: seq<Listener>, devices: seq<Device>, discovery: Enumeration, stopped: bool)

  /** setCurrentWebcams: the new roster is published, then re-registered with the
      deallocator when the termination hook is on. */
  function PublishTrace(ws: seq<Webcam>, handleTermSignal: bool): seq<Effect>
  {
    [Published(ws)] + if handleTermSignal then [Unstored, Stored(ws)] else []
  }

  /** First discovery: the roster is published, every webcam is announced as ADDED in
      roster order, then the roster is registered with the deallocator if the hook is on. */
  function DiscoveryTrace(ws: seq<Webcam>, ls: seq<Listener>, handleTermSignal: bool): seq<Effect>
  {
    [Published(ws)] + FoundTrace(ws, ls) + if handleTermSignal then [Stored(ws)] else []
  }

  /** The rosters of one reconciliation: `interim` is the roster after the removal phase
      (the old one if nothing was removed), `r1` the roster at the end of the cycle; each
      replacement wraps exactly the new enumeration. */
  ghost predicate Reconciled(r0: seq<Webcam>, tmpnew: seq<Device>, interim: seq<Webcam>, r1: seq<Webcam>)
  {
    var (oldones, newones) := Reduction(DevicesOf(r0), tmpnew);
    && (oldones == [] ==> interim == r0)
    && (oldones != [] ==> DevicesOf(interim) == tmpnew)
    && (newones == [] ==> r1 == interim)
    && (newones != [] ==> DevicesOf(r1) == tmpnew)
  }

  /** The effects of one reconciliation (run(), lines 200-235): when old devices are left
      over, the roster is replaced, then each of their old-roster webcams gets REMOVED and
      is disposed; when new devices are left over, the roster is replaced again, then each
      of their new-roster webcams gets ADDED. */
  function ReconcileTrace(r0: seq<Webcam>, tmpnew: seq<Device>, ls: seq<Listener>, handleTermSignal: bool,
                          interim: seq<Webcam>, r1: seq<Webcam>): seq<Effect>
  {
    var (oldones, newones) := Reduction(DevicesOf(r0), tmpnew);
    (if oldones != [] then PublishTrace(interim, handleTermSignal) + GoneTrace(Matches(oldones, r0), ls) else [])
    + (if newones != [] then PublishTrace(r1, handleTermSignal) + FoundTrace(Matches(newones, r1), ls) else [])
  }

  lemma ReconcileUnfold(r0: seq<Webcam>, tmpnew: seq<Device>, ls: seq<Listener>, handleTermSignal: bool,
                        interim: seq<Webcam>, r1: seq<Webcam>, oldones: seq<Device>, newones: seq<Device>)
    requires Reduction(DevicesOf(r0), tmpnew) == (oldones, newones)
    ensures ReconcileTrace(r0, tmpnew, ls, handleTermSignal, interim, r1)
      == (if oldones != [] then PublishTrace(interim, handleTermSignal) + GoneTrace(Matches(oldones, r0), ls) else [])
         + (if newones != [] then PublishTrace(r1, handleTermSignal) + FoundTrace(Matches(newones, r1), ls) else [])
    ensures Reconciled(r0, tmpnew, interim, r1) <==>
      && (oldones == [] ==> interim == r0)
      && (oldones != [] ==> DevicesOf(interim) == tmpnew)
      && (newones == [] ==> r1 == interim)
      && (newones != [] ==> DevicesOf(r1) == tmpnew)
  {
  }

  /** A cycle has effects iff the reduction leaves something over, and its first effect then
      publishes a new roster: the roster is replaced before any listener hears of a change. */
  lemma ReconcilePublishesFirst(r0: seq<Webcam>, tmpnew: seq<Device>, ls: seq<Listener>, handleTermSignal: bool,
                                interim: seq<Webcam>, r1: seq<Webcam>)
    ensures ReconcileTrace(r0, tmpnew, ls, handleTermSignal, interim, r1) == [] <==>
      Reduction(DevicesOf(r0), tmpnew) == ([], [])
    ensures ReconcileTrace(r0, tmpnew, ls, handleTermSignal, interim, r1) != [] ==>
      ReconcileTrace(r0, tmpnew, ls, handleTermSignal, interim, r1)[0] ==
        Published(if Reduction(DevicesOf(r0), tmpnew).0 != [] then interim else r1)
  {
    var (oldones, newones) := Reduction(DevicesOf(r0), tmpnew);
    ReconcileUnfold(r0, tmpnew, ls, handleTermSignal, interim, r1, oldones, newones);
  }

  /** Seen from one listener of a snapshot without repetitions, a cycle delivers one REMOVED
      event per vanished device, for its old-roster webcam, then one ADDED event per appeared
      device, for its new-roster webcam; a listener outside the snapshot hears nothing. */
  lemma ReconcileNotifies(r0: seq<Webcam>, tmpnew: seq<Device>, ls: seq<Listener>, handleTermSignal: bool,
                          interim: seq<Webcam>, r1: seq<Webcam>, l: Listener)
    requires Distinct(ls)
    ensures Received(ReconcileTrace(r0, tmpnew, ls, handleTermSignal, interim, r1), l) ==
      if l in ls then
        EventsOf(Matches(Reduction(DevicesOf(r0), tmpnew).0, r0), Removed)
        + EventsOf(Matches(Reduction(DevicesOf(r0), tmpnew).1, r1), Added)
      else []
  {
    var (oldones, newones) := Reduction(DevicesOf(r0), tmpnew);
    ReconcileUnfold(r0, tmpnew, ls, handleTermSignal, interim, r1, oldones, newones);
    PhasesReceived(interim, r1, handleTermSignal, Matches(oldones, r0), Matches(newones, r1), ls, l,
                   oldones != [], newones != []);
  }

  lemma PhasesReceived(interim: seq<Webcam>, r1: seq<Webcam>, handleTermSignal: bool,
                       gone: seq<Webcam>, found: seq<Webcam>, ls: seq<Listener>, l: Listener,
                       removing: bool, adding: bool)
    requires Distinct(ls)
    requires !removing ==> gone == []
    requires !adding ==> found == []
    ensures Received((if removing then PublishTrace(interim, handleTermSignal) + GoneTrace(gone, ls) else [])
                     + (if adding then PublishTrace(r1, handleTermSignal) + FoundTrace(found, ls) else []), l)
      == if l in ls then EventsOf(gone, Removed) + EventsOf(found, Added) else []
  {
    var a := if removing then PublishTrace(interim, handleTermSignal) + GoneTrace(gone, ls) else [];
    var b := if adding then PublishTrace(r1, handleTermSignal) + FoundTrace(found, ls) else [];
    RemovalPhaseReceived(interim, handleTermSignal, gone, ls, l, removing);
    AdditionPhaseReceived(r1, handleTermSignal, found, ls, l, adding);
    ReceivedConcat(a, b, l);
  }

  /** The removal phase of a cycle, seen from one listener. */
  lemma RemovalPhaseReceived(interim: seq<Webcam>, handleTermSignal: bool, gone: seq<Webcam>,
                             ls: seq<Listener>, l: Listener, removing: bool)
    requires Distinct(ls)
    requires !removing ==> gone == []
    ensures Received(if removing then PublishTrace(interim, handleTermSignal) + GoneTrace(gone, ls) else [], l)
      == if l in ls then EventsOf(gone, Removed) else []
  {
    if removing {
      ReceivedConcat(PublishTrace(interim, handleTermSignal), GoneTrace(gone, ls), l);
      PublishTraceNotifiesNoOne(interim, handleTermSignal, l);
      GoneTraceNotifies(gone, ls, l);
    } else {
      assert EventsOf(gone, Removed) == [];
    }
  }

  /** The addition phase of a cycle, seen from one listener. */
  lemma AdditionPhaseReceived(r1: seq<Webcam>, handleTermSignal: bool, found: seq<Webcam>,
                              ls: seq<Listener>, l: Listener, adding: bool)
    requires Distinct(ls)
    requires !adding ==> found == []
    ensures Received(if adding then PublishTrace(r1, handleTermSignal) + FoundTrace(found, ls) else [], l)
      == if l in ls then EventsOf(found, Added) else []
  {
    if adding {
      ReceivedConcat(PublishTrace(r1, handleTermSignal), FoundTrace(found, ls), l);
      PublishTraceNotifiesNoOne(r1, handleTermSignal, l);
      FoundTraceNotifies(found, ls, l);
    } else {
      assert EventsOf(found, Added) == [];
    }
  }

  /** A cycle disposes exactly the old-roster webcams of the vanished devices, in order. */
  lemma ReconcileDisposes(r0: seq<Webcam>, tmpnew: seq<Device>, ls: seq<Listener>, handleTermSignal: bool,
                          interim: seq<Webcam>, r1: seq<Webcam>)
    ensures Disposals(ReconcileTrace(r0, tmpnew, ls, handleTermSignal, interim, r1)) ==
      Matches(Reduction(DevicesOf(r0), tmpnew).0, r0)
  {
    var (oldones, newones) := Reduction(DevicesOf(r0), tmpnew);
    ReconcileUnfold(r0, tmpnew, ls, handleTermSignal, interim, r1, oldones, newones);
    var gone := Matches(oldones, r0);
    var found := Matches(newones, r1);
    var a := if oldones != [] then PublishTrace(interim, handleTermSignal) + GoneTrace(gone, ls) else [];
    var b := if newones != [] then PublishTrace(r1, handleTermSignal) + FoundTrace(found, ls) else [];
    DisposalsConcat(a, b);
    if oldones != [] {
      DisposalsConcat(PublishTrace(interim, handleTermSignal), GoneTrace(gone, ls));
      PublishTraceDisposesNothing(interim, handleTermSignal);
      GoneTraceDisposes(gone, ls);
    }
    if newones != [] {
      DisposalsConcat(PublishTrace(r1, handleTermSignal), FoundTrace(found, ls));
      PublishTraceDisposesNothing(r1, handleTermSignal);
      FoundTraceDisposesNothing(found, ls);
    }
  }

  /** Every device left over in the old list has a webcam on the old roster: the removal
      phase handles one webcam per vanished device, the first of the roster with its name. */
  lemma ReconcileRemovesEveryVanished(r0: seq<Webcam>, tmpnew: seq<Device>)
    ensures |Matches(Reduction(DevicesOf(r0), tmpnew).0, r0)| == |Reduction(DevicesOf(r0), tmpnew).0|
    ensures forall i :: 0 <= i < |Reduction(DevicesOf(r0), tmpnew).0| ==>
      var d := Reduction(DevicesOf(r0), tmpnew).0[i];
      FirstNamed(DevicesOf(r0), d.name).Some? &&
      Matches(Reduction(DevicesOf(r0), tmpnew).0, r0)[i] == r0[FirstNamed(DevicesOf(r0), d.name).value]
  {
    var oldones := Reduction(DevicesOf(r0), tmpnew).0;
    ReductionKeepsOrder(DevicesOf(r0), tmpnew);
    LeftoversAreNamedIn(oldones, DevicesOf(r0), r0);
    MatchesAreComplete(oldones, r0);
  }

  /** After the roster has been rebuilt from the new enumeration, every device left over in
      the new list has a webcam there: the addition phase announces one webcam per appeared
      device, the first of the new roster with its name. */
  lemma ReconcileAddsEveryAppeared(r0: seq<Webcam>, tmpnew: seq<Device>, interim: seq<Webcam>, r1: seq<Webcam>)
    requires Reconciled(r0, tmpnew, interim, r1)
    ensures |Matches(Reduction(DevicesOf(r0), tmpnew).1, r1)| == |Reduction(DevicesOf(r0), tmpnew).1|
    ensures forall i :: 0 <= i < |Reduction(DevicesOf(r0), tmpnew).1| ==>
      var d := Reduction(DevicesOf(r0), tmpnew).1[i];
      FirstNamed(DevicesOf(r1), d.name).Some? &&
      Matches(Reduction(DevicesOf(r0), tmpnew).1, r1)[i] == r1[FirstNamed(DevicesOf(r1), d.name).value]
  {
    var newones := Reduction(DevicesOf(r0), tmpnew).1;
    if newones != [] {
      assert DevicesOf(r1) == tmpnew;
      ReductionKeepsOrder(DevicesOf(r0), tmpnew);
      LeftoversAreNamedIn(newones, tmpnew, r1);
    }
    MatchesAreComplete(newones, r1);
  }

  /** With unique names on the old roster, a webcam whose device the new enumeration still
      reports is neither disposed nor announced as REMOVED by the cycle. */
  lemma ReconcileSparesSurvivors(r0: seq<Webcam>, tmpnew: seq<Device>, ls: seq<Listener>, handleTermSignal: bool,
                                 interim: seq<Webcam>, r1: seq<Webcam>, w: Webcam, l: Listener)
    requires Distinct(Names(DevicesOf(r0)))
    requires w.device.name in Names(tmpnew)
    ensures w !in Disposals(ReconcileTrace(r0, tmpnew, ls, handleTermSignal, interim, r1))
    ensures Event(w, Removed) !in Received(ReconcileTrace(r0, tmpnew, ls, handleTermSignal, interim, r1), l)
  {
    var (oldones, newones) := Reduction(DevicesOf(r0), tmpnew);
    var gone := Matches(oldones, r0);
    ReconcileDisposes(r0, tmpnew, ls, handleTermSignal, interim, r1);
    ReconcileReceivesOnly(r0, tmpnew, ls, handleTermSignal, interim, r1, l);
    MatchesAreFromRoster(oldones, r0);
    ReductionLeftoversAreAbsent(DevicesOf(r0), tmpnew);
  }

  /** With unique names in the new enumeration, a cycle announces as ADDED only webcams whose
      device name the old roster did not have. */
  lemma ReconcileAddsOnlyNewNames(r0: seq<Webcam>, tmpnew: seq<Device>, ls: seq<Listener>, handleTermSignal: bool,
                                  interim: seq<Webcam>, r1: seq<Webcam>, w: Webcam, l: Listener)
    requires Distinct(Names(tmpnew))
    requires w.device.name in Names(DevicesOf(r0))
    ensures Event(w, Added) !in Received(ReconcileTrace(r0, tmpnew, ls, handleTermSignal, interim, r1), l)
  {
    var (oldones, newones) := Reduction(DevicesOf(r0), tmpnew);
    var found := Matches(newones, r1);
    ReconcileReceivesOnly(r0, tmpnew, ls, handleTermSignal, interim, r1, l);
    MatchesAreFromRoster(newones, r1);
    ReductionLeftoversAreAbsent(DevicesOf(r0), tmpnew);
  }

  /** Whatever the snapshot, a listener hears from a cycle only REMOVED events for the webcams
      of vanished devices and ADDED events for the webcams of appeared ones. */
  lemma ReconcileReceivesOnly(r0: seq<Webcam>, tmpnew: seq<Device>, ls: seq<Listener>, handleTermSignal: bool,
                              interim: seq<Webcam>, r1: seq<Webcam>, l: Listener)
    ensures forall e :: e in Received(ReconcileTrace(r0, tmpnew, ls, handleTermSignal, interim, r1), l) ==>
      if e.kind == Removed then e.webcam in Matches(Reduction(DevicesOf(r0), tmpnew).0, r0)
      else e.webcam in Matches(Reduction(DevicesOf(r0), tmpnew).1, r1)
  {
    var (oldones, newones) := Reduction(DevicesOf(r0), tmpnew);
    ReconcileUnfold(r0, tmpnew, ls, handleTermSignal, interim, r1, oldones, newones);
    PhasesReceiveOnly(interim, r1, handleTermSignal, Matches(oldones, r0), Matches(newones, r1), ls, l,
                      oldones != [], newones != []);
  }

  lemma PhasesReceiveOnly(interim: seq<Webcam>, r1: seq<Webcam>, handleTermSignal: bool,
                          gone: seq<Webcam>, found: seq<Webcam>, ls: seq<Listener>, l: Listener,
                          removing: bool, adding: bool)
    ensures forall e :: e in Received((if removing then PublishTrace(interim, handleTermSignal) + GoneTrace(gone, ls) else [])
                                      + (if adding then PublishTrace(r1, handleTermSignal) + FoundTrace(found, ls) else []), l) ==>
      if e.kind == Removed then e.webcam in gone else e.webcam in found
  {
    var a := if removing then PublishTrace(interim, handleTermSignal) + GoneTrace(gone, ls) else [];
    var b := if adding then PublishTrace(r1, handleTermSignal) + FoundTrace(found, ls) else [];
    ReceivedConcat(a, b, l);
    if removing {
      ReceivedConcat(PublishTrace(interim, handleTermSignal), GoneTrace(gone, ls), l);
      PublishTraceNotifiesNoOne(interim, handleTermSignal, l);
      GoneTraceReceivesOnly(gone, ls, l);
    }
    if adding {
      ReceivedConcat(PublishTrace(r1, handleTermSignal), FoundTrace(found, ls), l);
      PublishTraceNotifiesNoOne(r1, handleTermSignal, l);
      FoundTraceReceivesOnly(found, ls, l);
    }
  }

  /** When the new enumeration reports the same names as the roster, as often as the roster
      has them, a cycle does nothing at all and the roster stays the same objects. */
  lemma ReconcileQuietWhenUnchanged(r0: seq<Webcam>, tmpnew: seq<Device>, ls: seq<Listener>, handleTermSignal: bool,
                                    interim: seq<Webcam>, r1: seq<Webcam>)
    requires multiset(Names(DevicesOf(r0))) == multiset(Names(tmpnew))
    ensures ReconcileTrace(r0, tmpnew, ls, handleTermSignal, interim, r1) == []
    ensures Reconciled(r0, tmpnew, interim, r1) ==> r1 == r0
  {
    var (oldones, newones) := Reduction(DevicesOf(r0), tmpnew);
    ReductionCancelsNames(DevicesOf(r0), tmpnew);
    assert |Names(oldones)| == |multiset(Names(oldones))| == 0;
    assert |Names(newones)| == |multiset(Names(newones))| == 0;
    ReconcilePublishesFirst(r0, tmpnew, ls, handleTermSignal, interim, r1);
  }

  /** The first discovery, seen from one listener of a snapshot without repetitions: one
      ADDED event per webcam of the new roster, in roster order. */
  lemma DiscoveryNotifies(ws: seq<Webcam>, ls: seq<Listener>, handleTermSignal: bool, l: Listener)
    requires Distinct(ls)
    ensures Received(DiscoveryTrace(ws, ls, handleTermSignal), l) == if l in ls then EventsOf(ws, Added) else []
  {
    var head, tail := [Published(ws)], if handleTermSignal then [Stored(ws)] else [];
    assert head[..0] == [] && [Stored(ws)][..0] == [];
    assert Received(head, l) == [] && Received(tail, l) == [];
    FoundTraceNotifies(ws, ls, l);
    ReceivedBetween(head, FoundTrace(ws, ls), tail, l, if l in ls then EventsOf(ws, Added) else []);
  }

  /** Deliveries framed by effects that deliver nothing. */
  lemma ReceivedBetween(head: seq<Effect>, middle: seq<Effect>, tail: seq<Effect>, l: Listener, got: seq<Event>)
    requires Received(head, l) == [] && Received(tail, l) == []
    requires Received(middle, l) == got
    ensures Received(head + middle + tail, l) == got
  {
    ReceivedConcat(head, middle, l);
    ReceivedConcat(head + middle, tail, l);
  }

  /** A worked cycle: the roster holds webcams for A and X and the driver now reports A and Y.
      The new roster wraps exactly A and Y; X's webcam gets REMOVED and is disposed, then the
      new Y webcam gets ADDED; nothing else is delivered or disposed. */
  lemma ReplacingOneDevice(r0: seq<Webcam>, tmpnew: seq<Device>, ls: seq<Listener>, handleTermSignal: bool,
                           interim: seq<Webcam>, r1: seq<Webcam>, l: Listener)
    requires DevicesOf(r0) == [Device("A", 0), Device("X", 0)]
    requires tmpnew == [Device("A", 1), Device("Y", 1)]
    requires Reconciled(r0, tmpnew, interim, r1)
    requires Distinct(ls) && l in ls
    ensures DevicesOf(r1) == tmpnew
    ensures Received(ReconcileTrace(r0, tmpnew, ls, handleTermSignal, interim, r1), l)
      == [Event(r0[1], Removed), Event(r1[1], Added)]
    ensures Disposals(ReconcileTrace(r0, tmpnew, ls, handleTermSignal, interim, r1)) == [r0[1]]
  {
    ReplacingOneDeviceReduces();
    assert Reduction(DevicesOf(r0), tmpnew) == ([Device("X", 0)], [Device("Y", 1)]);
    assert DevicesOf(r1) == tmpnew;
    ReplacingOneDeviceMatches(r0, r1);
    ReconcileNotifies(r0, tmpnew, ls, handleTermSignal, interim, r1, l);
    ReconcileDisposes(r0, tmpnew, ls, handleTermSignal, interim, r1);
    assert EventsOf([r0[1]], Removed) == [Event(r0[1], Removed)];
    assert EventsOf([r1[1]], Added) == [Event(r1[1], Added)];
  }

  /** In the worked cycle X is matched to its old webcam and Y to its new one. */
  lemma ReplacingOneDeviceMatches(r0: seq<Webcam>, r1: seq<Webcam>)
    requires DevicesOf(r0) == [Device("A", 0), Device("X", 0)]
    requires DevicesOf(r1) == [Device("A", 1), Device("Y", 1)]
    ensures |r0| == 2 && |r1| == 2
    ensures Matches([Device("X", 0)], r0) == [r0[1]]
    ensures Matches([Device("Y", 1)], r1) == [r1[1]]
  {
    assert FirstNamed(DevicesOf(r0), "X") == Some(1);
    assert [Device("X", 0)][..0] == [];
    assert FirstNamed(DevicesOf(r1), "Y") == Some(1);
    assert [Device("Y", 1)][..0] == [];
  }

  /** The reduction of the worked cycle leaves X over in the old list and Y in the new one. */
  lemma ReplacingOneDeviceReduces()
    ensures Reduction([Device("A", 0), Device("X", 0)], [Device("A", 1), Device("Y", 1)])
      == ([Device("X", 0)], [Device("Y", 1)])
  {
    var tmpnew := [Device("A", 1), Device("Y", 1)];
    assert FirstNamed(tmpnew, "A") == Some(0);
    assert tmpnew[..0] + tmpnew[1..] == [Device("Y", 1)];
    assert [Device("A", 0), Device("X", 0)][1..] == [Device("X", 0)];
    assert FirstNamed([Device("Y", 1)], "X") == None;
    assert [Device("X", 0)][1..] == [];
    assert Reduction([], [Device("Y", 1)]) == ([], [Device("Y", 1)]);
    assert [Device("X", 0)] + [] == [Device("X", 0)];
  }

  /** A subsequence of a roster's devices names only devices of that roster. */
  lemma LeftoversAreNamedIn(left: seq<Device>, all: seq<Device>, ws: seq<Webcam>)
    requires all == DevicesOf(ws)
    requires IsSubsequence(left, all)
    ensures forall d :: d in left ==> d.name in Names(DevicesOf(ws))
  {
    SubsequenceElements(left, all);
    forall d | d in left
      ensures d.name in Names(DevicesOf(ws))
    {
      assert multiset(left)[d] > 0;
      assert d in multiset(all);
      NameOfMember(d, all);
    }
  }

  lemma PublishTraceDisposesNothing(ws: seq<Webcam>, handleTermSignal: bool)
    ensures Disposals(PublishTrace(ws, handleTermSignal)) == []
  {
    var e := Published(ws);
    assert [e][..0] == [];
    if handleTermSignal {
      assert [Unstored][..0] == [];
      assert [Stored(ws)][..0] == [];
      DisposalsConcat([e], [Unstored]);
      DisposalsConcat([e] + [Unstored], [Stored(ws)]);
      assert PublishTrace(ws, handleTermSignal) == [e] + [Unstored] + [Stored(ws)];
    } else {
      assert PublishTrace(ws, handleTermSignal) == [e];
    }
  }

  lemma PublishTraceNotifiesNoOne(ws: seq<Webcam>, handleTermSignal: bool, l: Listener)
    ensures Received(PublishTrace(ws, handleTermSignal), l) == []
  {
    var e := Published(ws);
    assert [e][..0] == [];
    if handleTermSignal {
      assert [Unstored][..0] == [];
      assert [Stored(ws)][..0] == [];
      ReceivedConcat([e], [Unstored], l);
      ReceivedConcat([e] + [Unstored], [Stored(ws)], l);
      assert PublishTrace(ws, handleTermSignal) == [e] + [Unstored] + [Stored(ws)];
    } else {
      assert PublishTrace(ws, handleTermSignal) == [e];
    }
  }

  class WebcamDiscoveryService {
    /** Whether the driver offers continuous discovery (the driver is a WebcamDiscoverySupport). */
    const supportsDiscovery: bool
    /** Webcam.isHandleTermSignal(): whether rosters are registered with the deallocator. */
    const handleTermSignal: bool

    /** The roster; None until the first successful discovery. */
    var webcams: Option<seq<Webcam>>
    var running: bool
    /** Every externally visible effect so far, in order. */
    var log: seq<Effect>

    /** The roster holds each webcam once, and no disposed webcam is on it. */
    ghost predicate Valid()
      reads this
    {
      webcams.Some? ==>
        Distinct(webcams.value) && forall w :: w in Disposals(log) ==> w !in webcams.value
    }

    constructor (supportsDiscovery: bool, handleTermSignal: bool)
      ensures Valid()
      ensures this.supportsDiscovery == supportsDiscovery && this.handleTermSignal == handleTermSignal
      ensures webcams == None && !running && log == []
    {
      this.supportsDiscovery := supportsDiscovery;
      this.handleTermSignal := handleTermSignal;
      webcams := None;
      running := false;
      log := [];
    }

    /** setCurrentWebcams: replace the whole roster by new webcams for `devices`. */
    method SetCurrentWebcams(devices: seq<Device>)
      requires Valid()
      modifies this`webcams, this`log
      ensures Valid()
      ensures webcams.Some? && DevicesOf(webcams.value) == devices
      ensures forall w :: w in webcams.value ==> fresh(w)
      ensures log == old(log) + PublishTrace(webcams.value, handleTermSignal)
    {
      var ws := ToWebcams(devices);
      webcams := Some(ws);
      log := log + [Published(ws)];
      if handleTermSignal {
        log := log + [Unstored, Stored(ws)];
      }
      assert log == old(log) + PublishTrace(ws, handleTermSignal);
      DisposalsConcat(old(log), PublishTrace(ws, handleTermSignal));
      PublishTraceDisposesNothing(ws, handleTermSignal);
      forall w | w in Disposals(log)
        ensures w !in ws
      {
        DisposedIffListed(old(log), w);
      }
    }

    /** notifyWebcamGone: a REMOVED event to every listener of the snapshot, in order; a
        listener that throws is recorded and the loop goes on. */
    method NotifyWebcamGone(webcam: Webcam, listeners: seq<Listener>)
      modifies this`log
      ensures log == old(log) + Dispatch(Event(webcam, Removed), listeners)
    {
      var event := Event(webcam, Removed);
      for i := 0 to |listeners|
        invariant log == old(log) + Dispatch(event, listeners[..i])
      {
        assert listeners[..i + 1][..i] == listeners[..i];
        log := log + [Delivered(listeners[i], event)];
        if listeners[i].throws {
          log := log + [ListenerFailed(listeners[i], event)];
        }
      }
      assert listeners[..|listeners|] == listeners;
    }

    /** notifyWebcamFound: an ADDED event to every listener of the snapshot, in order; a
        listener that throws is recorded and the loop goes on. */
    method NotifyWebcamFound(webcam: Webcam, listeners: seq<Listener>)
      modifies this`log
      ensures log == old(log) + Dispatch(Event(webcam, Added), listeners)
    {
      var event := Event(webcam, Added);
      for i := 0 to |listeners|
        invariant log == old(log) + Dispatch(event, listeners[..i])
      {
        assert listeners[..i + 1][..i] == listeners[..i];
        log := log + [Delivered(listeners[i], event)];
        if listeners[i].throws {
          log := log + [ListenerFailed(listeners[i], event)];
        }
      }
      assert listeners[..|listeners|] == listeners;
    }

    /** The ADDED notifications for a whole roster, in roster order. */
    method AnnounceFound(ws: seq<Webcam>, listeners: seq<Listener>)
      modifies this`log
      ensures log == old(log) + FoundTrace(ws, listeners)
    {
      for i := 0 to |ws|
        invariant log == old(log) + FoundTrace(ws[..i], listeners)
      {
        assert ws[..i + 1][..i] == ws[..i];
        NotifyWebcamFound(ws[i], listeners);
      }
      assert ws[..|ws|] == ws;
    }

    /** Lines 228-233 for one device: an ADDED notification for the first webcam of `ws`
        with the device's name, if there is one. */
    method AnnounceMatch(d: Device, ws: seq<Webcam>, listeners: seq<Listener>)
      modifies this`log
      ensures log == old(log) + FoundTrace(MatchOf(d, ws), listeners)
    {
      var k := FirstWebcamNamed(ws, d.name);
      if k.Some? {
        assert MatchOf(d, ws) == [ws[k.value]];
        NotifyWebcamFound(ws[k.value], listeners);
        FoundTraceStep([], ws[k.value], listeners);
        assert [] + [ws[k.value]] == [ws[k.value]];
      } else {
        assert MatchOf(d, ws) == [];
      }
    }

    /** Lines 227-234: an ADDED notification for the first webcam of the roster named like
        each device, in device order; a device without one is passed over. */
    method AnnounceMatches(devices: seq<Device>, ws: seq<Webcam>, listeners: seq<Listener>)
      modifies this`log
      ensures log == old(log) + FoundTrace(Matches(devices, ws), listeners)
    {
      for i := 0 to |devices|
        invariant log == old(log) + FoundTrace(Matches(devices[..i], ws), listeners)
      {
        ghost var before := log;
        AnnounceMatch(devices[i], ws, listeners);
        AnnounceStep(old(log), before, log, Matches(devices[..i], ws), MatchOf(devices[i], ws), listeners);
        MatchesStep(devices, i, ws);
      }
      assert devices[..|devices|] == devices;
    }

    /** Lines 214-220: for each webcam in order, a REMOVED notification, then its disposal. */
    method AnnounceGone(ws: seq<Webcam>, listeners: seq<Listener>)
      modifies this`log
      ensures log == old(log) + GoneTrace(ws, listeners)
    {
      for i := 0 to |ws|
        invariant log == old(log) + GoneTrace(ws[..i], listeners)
      {
        assert ws[..i + 1][..i] == ws[..i];
        NotifyWebcamGone(ws[i], listeners);
        log := log + [Disposed(ws[i])];
      }
      assert ws[..|ws|] == ws;
    }

    /** getWebcams(timeout, tunit): validates its arguments, returns the cached roster if
        there is one, and otherwise runs the first discovery, whose outcome at the deadline is
        `discovery`; `listeners` is the listener snapshot taken after a successful discovery. */
    method GetWebcams(timeout: int, unit: Option<TimeUnit>, listeners: seq<Listener>, discovery: Enumeration)
      returns (r: Result<seq<Webcam>, Error>)
      requires Valid()
      modifies this`webcams, this`log
      ensures Valid()
      ensures timeout < 0 ==> r == Failure(IllegalArgument(NegativeTimeout))
      ensures 0 <= timeout && unit.None? ==> r == Failure(IllegalArgument(NullTimeUnit))
      ensures timeout < 0 || unit.None? || old(webcams).Some? ==> webcams == old(webcams) && log == old(log)
      ensures 0 <= timeout && unit.Some? && old(webcams).Some? ==> r == Success(old(webcams).value)
      ensures 0 <= timeout && unit.Some? && old(webcams).None? ==>
        match discovery
        case Done(ds) =>
          && webcams.Some? && r == Success(webcams.value) && DevicesOf(webcams.value) == ds
          && (forall w :: w in webcams.value ==> fresh(w))
          && log == old(log) + [Enumerate] + DiscoveryTrace(webcams.value, listeners, handleTermSignal)
        case NotDone => r == Failure(Timeout(timeout)) && webcams.None? && log == old(log) + [Enumerate]
        case Failed => r == Failure(WebcamError) && webcams.None? && log == old(log) + [Enumerate]
    {
      if timeout < 0 {
        return Failure(IllegalArgument(NegativeTimeout));
      }
      if unit.None? {
        return Failure(IllegalArgument(NullTimeUnit));
      }
      if webcams.Some? {
        return Success(webcams.value);
      }
      // the discovery task calls driver.getDevices() and wraps the result
      log := log + [Enumerate];
      if discovery.Failed? {
        return Failure(WebcamError);
      }
      if discovery.NotDone? {
        return Failure(Timeout(timeout));
      }
      var ws := ToWebcams(discovery.devices);
      ghost var prefix := log;
      webcams := Some(ws);
      log := log + [Published(ws)];
      AnnounceFound(ws, listeners);
      if handleTermSignal {
        log := log + [Stored(ws)];
      }
      assert log == prefix + DiscoveryTrace(ws, listeners, handleTermSignal);
      DiscoveryTraceDisposesNothing(prefix, ws, listeners, handleTermSignal);
      forall w | w in Disposals(log)
        ensures w !in ws
      {
        DisposedIffListed(prefix, w);
      }
      return Success(ws);
    }

    /** Lines 201-220: the roster is replaced by webcams for the new enumeration, then each
        old-roster webcam of a vanished device gets REMOVED and is disposed. */
    method HandleRemoved(oldones: seq<Device>, tmpnew: seq<Device>, listeners: seq<Listener>)
      requires Valid() && webcams.Some?
      modifies this`webcams, this`log
      ensures Valid() && webcams.Some? && DevicesOf(webcams.value) == tmpnew
      ensures forall w :: w in webcams.value ==> fresh(w)
      ensures log == old(log) + (PublishTrace(webcams.value, handleTermSignal)
                                 + GoneTrace(Matches(oldones, old(webcams).value), listeners))
    {
      ghost var r0 := webcams.value;
      var notified := MatchingWebcams(oldones, webcams.value);
      MatchesAreFromRoster(oldones, r0);
      SetCurrentWebcams(tmpnew);
      ghost var start := log;
      AnnounceGone(notified, listeners);
      GoneKeepsValid(start, notified, listeners);
      AppendAssociative(old(log), PublishTrace(webcams.value, handleTermSignal), GoneTrace(notified, listeners));
      forall w | w in Disposals(log)
        ensures w !in webcams.value
      {
        assert w in Disposals(start) || w in notified;
      }
    }

    /** Lines 223-235: the roster is replaced by webcams for the new enumeration, then the
        new-roster webcam of each appeared device gets ADDED. */
    method HandleAdded(newones: seq<Device>, tmpnew: seq<Device>, listeners: seq<Listener>)
      requires Valid()
      modifies this`webcams, this`log
      ensures Valid() && webcams.Some? && DevicesOf(webcams.value) == tmpnew
      ensures forall w :: w in webcams.value ==> fresh(w)
      ensures log == old(log) + (PublishTrace(webcams.value, handleTermSignal)
                                 + FoundTrace(Matches(newones, webcams.value), listeners))
    {
      SetCurrentWebcams(tmpnew);
      ghost var start := log;
      AnnounceMatches(newones, webcams.value, listeners);
      FoundKeepsValid(start, Matches(newones, webcams.value), listeners);
      AppendAssociative(old(log), PublishTrace(webcams.value, handleTermSignal),
                        FoundTrace(Matches(newones, webcams.value), listeners));
    }

    /** Lines 169-235 of one polling cycle, given the new enumeration and the devices of the
        current roster: reduce the two lists, then handle removed and added devices. */
    method Reconcile(listeners: seq<Listener>, tmpnew: seq<Device>, tmpold: seq<Device>)
      returns (ghost interim: seq<Webcam>)
      requires Valid() && webcams.Some? && tmpold == DevicesOf(webcams.value)
      modifies this`webcams, this`log
      ensures Valid() && webcams.Some?
      ensures Reconciled(old(webcams).value, tmpnew, interim, webcams.value)
      ensures log == old(log) + ReconcileTrace(old(webcams).value, tmpnew, listeners, handleTermSignal, interim, webcams.value)
      ensures Reduction(tmpold, tmpnew).0 != [] ==> forall w :: w in interim ==> fresh(w)
      ensures Reduction(tmpold, tmpnew) != ([], []) ==> forall w :: w in webcams.value ==> fresh(w)
    {
      var oldones, newones := Reduce(tmpold, tmpnew);
      ghost var r0 := webcams.value;
      ghost var start := log;
      ghost var partA: seq<Effect> := [];
      interim := r0;
      if |oldones| > 0 {
        HandleRemoved(oldones, tmpnew, listeners);
        interim := webcams.value;
        partA := PublishTrace(interim, handleTermSignal) + GoneTrace(Matches(oldones, r0), listeners);
      } else {
        assert log == start + partA;
      }
      ghost var mid := log;
      ghost var partB: seq<Effect> := [];
      if |newones| > 0 {
        HandleAdded(newones, tmpnew, listeners);
        partB := PublishTrace(webcams.value, handleTermSignal) + FoundTrace(Matches(newones, webcams.value), listeners);
      } else {
        assert log == mid + partB;
      }
      ReconcileUnfold(r0, tmpnew, listeners, handleTermSignal, interim, webcams.value, oldones, newones);
      AppendAssociative(start, partA, partB);
    }

    /** One iteration of the polling loop (lines 149-235), without the delay: `listeners` is
        the snapshot, `tmpnew` what the driver enumerates, and `discovery` the outcome of the
        first discovery should the roster still be unknown. `r0` is the roster diffed against. */
    method Cycle(listeners: seq<Listener>, tmpnew: seq<Device>, discovery: Enumeration)
      returns (r: Result<(), Error>, ghost r0: seq<Webcam>, ghost interim: seq<Webcam>)
      requires Valid()
      modifies this`webcams, this`log
      ensures Valid()
      ensures old(webcams).Some? ==> webcams.Some?
      ensures listeners == [] ==> r.Success? && webcams == old(webcams) && log == old(log)
      ensures listeners != [] && old(webcams).Some? ==>
        && r.Success? && r0 == old(webcams).value && webcams.Some?
        && Reconciled(r0, tmpnew, interim, webcams.value)
        && log == old(log) + [Enumerate]
                 + ReconcileTrace(r0, tmpnew, listeners, handleTermSignal, interim, webcams.value)
      ensures listeners != [] && old(webcams).None? && discovery.Done? ==>
        && r.Success? && DevicesOf(r0) == discovery.devices && webcams.Some?
        && Reconciled(r0, tmpnew, interim, webcams.value)
        && log == old(log) + [Enumerate] + [Enumerate] + DiscoveryTrace(r0, listeners, handleTermSignal)
                 + ReconcileTrace(r0, tmpnew, listeners, handleTermSignal, interim, webcams.value)
      ensures listeners != [] && old(webcams).None? && !discovery.Done? ==>
        r == Failure(WebcamError) && webcams.None? && log == old(log) + [Enumerate] + [Enumerate]
      ensures listeners != [] && old(webcams).None? && discovery.Done? ==> forall w :: w in r0 ==> fresh(w)
      ensures listeners != [] && r.Success? ==>
        && (Reduction(DevicesOf(r0), tmpnew).0 != [] ==> forall w :: w in interim ==> fresh(w))
        && (Reduction(DevicesOf(r0), tmpnew) != ([], []) ==> forall w :: w in webcams.value ==> fresh(w))
    {
      if listeners == [] {
        return Success(()), [], [];
      }
      log := log + [Enumerate];
      var got := GetWebcams(LongMaxValue, Some(Milliseconds), listeners, discovery);
      if got.Failure? {
        return Failure(WebcamError), [], [];
      }
      r0 := got.value;
      var tmpold := GetDevices(got.value);
      assert tmpold == DevicesOf(r0);
      interim := Reconcile(listeners, tmpnew, tmpold);
      r := Success(());
    }

    /** run(): nothing when the driver cannot discover; otherwise the polling loop, here over
        a finite schedule of rounds. The loop ends when a cycle throws (the exception leaves
        the running flag set), after a round during which stop() cleared the flag, or when
        the schedule is exhausted. `count` is the number of rounds performed. */
    method Run(rounds: seq<Round>) returns (r: Result<(), Error>, count: nat)
      requires Valid()
      modifies this`running, this`webcams, this`log
      ensures Valid()
      ensures !supportsDiscovery ==>
        r.Success? && count == 0 && running == old(running) && webcams == old(webcams) && log == old(log)
      ensures supportsDiscovery ==> count <= |rounds|
      ensures supportsDiscovery ==> forall k :: 0 <= k < count - 1 ==> !rounds[k].stopped
      ensures supportsDiscovery && r.Success? ==>
        && (count == |rounds| || (0 < count && rounds[count - 1].stopped))
        && (running <==> forall k :: 0 <= k < count ==> !rounds[k].stopped)
      ensures r.Failure? ==> r == Failure(WebcamError) && running && 0 < count
      ensures old(webcams).Some? ==> webcams.Some?
    {
      if !supportsDiscovery {
        return Success(()), 0;
      }
      running := true;
      count := 0;
      while count < |rounds| && running
        invariant count <= |rounds|
        invariant Valid()
        invariant old(webcams).Some? ==> webcams.Some?
        invariant running <==> forall k :: 0 <= k < count ==> !rounds[k].stopped
        invariant forall k :: 0 <= k < count - 1 ==> !rounds[k].stopped
        decreases |rounds| - count
      {
        var round := rounds[count];
        ghost var r0, interim;
        var outcome: Result<(), Error>;
        outcome, r0, interim := Cycle(round.listeners, round.devices, round.discovery);
        count := count + 1;
        if outcome.Failure? {
          return Failure(WebcamError), count;
        }
        if round.stopped {
          running := false;
        }
      }
      r := Success(());
    }

    /** stop(), reduced to clearing the running flag that the polling loop checks. */
    method Stop()
      modifies this`running
      ensures !running
    {
      running := false;
    }

    /** shutdown(): stop, dispose every webcam of the roster in order, clear the roster and
        unregister from the deallocator. On a service whose roster was never discovered the
        dispose loop dereferences null. */
    method Shutdown() returns (r: Result<(), Error>)
      requires Valid()
      modifies this`running, this`webcams, this`log
      ensures Valid() && !running
      ensures old(webcams).None? ==> r == Failure(NullPointer) && webcams.None? && log == old(log)
      ensures old(webcams).Some? ==>
        && r.Success? && webcams == Some([])
        && log == old(log) + DisposalTrace(old(webcams).value) + if handleTermSignal then [Unstored] else []
      ensures old(webcams).Some? ==> forall w :: w in old(webcams).value ==> multiset(Disposals(log))[w] == 1
    {
      Stop();
      if webcams.None? {
        return Failure(NullPointer);
      }
      var ws := webcams.value;
      for i := 0 to |ws|
        invariant webcams == Some(ws) && !running
        invariant log == old(log) + DisposalTrace(ws[..i])
      {
        assert ws[..i + 1][..i] == ws[..i];
        log := log + [Disposed(ws[i])];
      }
      assert ws[..|ws|] == ws;
      webcams := Some([]);
      ghost var tail: seq<Effect> := [];
      if handleTermSignal {
        tail := [Unstored];
        log := log + [Unstored];
      } else {
        assert log == old(log) + DisposalTrace(ws) + tail;
      }
      forall w | w in ws
        ensures multiset(Disposals(log))[w] == 1
      {
        assert tail[..0] == [];
        ShutdownDisposesEachOnce(old(log), ws, tail, w);
      }
      return Success(());
    }
  }

  /** Shutdown disposes every webcam of a roster without repetitions exactly once over the
      whole life of the service, given that none of them had been disposed before. */
  lemma ShutdownDisposesEachOnce(before: seq<Effect>, ws: seq<Webcam>, tail: seq<Effect>, w: Webcam)
    requires Distinct(ws) && w in ws
    requires w !in Disposals(before) && Disposals(tail) == []
    ensures multiset(Disposals(before + DisposalTrace(ws) + tail))[w] == 1
  {
    DisposalsConcat(before, DisposalTrace(ws));
    DisposalsConcat(before + DisposalTrace(ws), tail);
    DisposalTraceDisposesEachOnce(ws, w);
  }

  lemma DiscoveryTraceDisposesNothing(prefix: seq<Effect>, ws: seq<Webcam>, ls: seq<Listener>, handleTermSignal: bool)
    ensures Disposals(prefix + DiscoveryTrace(ws, ls, handleTermSignal)) == Disposals(prefix)
  {
    var e := Published(ws);
    var tail := if handleTermSignal then [Stored(ws)] else [];
    assert [e][..0] == [];
    assert [Stored(ws)][..0] == [];
    assert Disposals(tail) == [];
    FoundTraceDisposesNothing(ws, ls);
    DisposalsConcat([e], FoundTrace(ws, ls));
    DisposalsConcat([e] + FoundTrace(ws, ls), tail);
    DisposalsConcat(prefix, DiscoveryTrace(ws, ls, handleTermSignal));
  }

  lemma GoneKeepsValid(before: seq<Effect>, ws: seq<Webcam>, ls: seq<Listener>)
    ensures Disposals(before + GoneTrace(ws, ls)) == Disposals(before) + ws
  {
    DisposalsConcat(before, GoneTrace(ws, ls));
    GoneTraceDisposes(ws, ls);
  }

  lemma FoundKeepsValid(before: seq<Effect>, ws: seq<Webcam>, ls: seq<Listener>)
    ensures Disposals(before + FoundTrace(ws, ls)) == Disposals(before)
  {
    DisposalsConcat(before, FoundTrace(ws, ls));
    FoundTraceDisposesNothing(ws, ls);
  }

  lemma MatchesStep(devices: seq<Device>, i: nat, ws: seq<Webcam>)
    requires i < |devices|
    ensures Matches(devices[..i + 1], ws) == Matches(devices[..i], ws) + MatchOf(devices[i], ws)
  {
    assert devices[..i + 1][..i] == devices[..i];
  }

  lemma FoundTraceStep(ms: seq<Webcam>, w: Webcam, ls: seq<Listener>)
    ensures FoundTrace(ms + [w], ls) == FoundTrace(ms, ls) + Dispatch(Event(w, Added), ls)
  {
    assert (ms + [w])[..|ms|] == ms;
  }

  lemma AnnounceStep(start: seq<Effect>, before: seq<Effect>, after: seq<Effect>,
                     done: seq<Webcam>, next: seq<Webcam>, ls: seq<Listener>)
    requires before == start + FoundTrace(done, ls)
    requires after == before + FoundTrace(next, ls)
    ensures after == start + FoundTrace(done + next, ls)
  {
    FoundTraceConcat(done, next, ls);
  }

  lemma {:induction false} FoundTraceConcat(a: seq<Webcam>, b: seq<Webcam>, ls: seq<Listener>)
    ensures FoundTrace(a + b, ls) == FoundTrace(a, ls) + FoundTrace(b, ls)
    decreases |b|
  {
    if b != [] {
      var n := |b| - 1;
      assert (a + b)[..|a + b| - 1] == a + b[..n];
      FoundTraceConcat(a, b[..n], ls);
    } else {
      assert a + b == a;
    }
  }

  /** Lines 203-212: the first webcam of the roster named like each device, in device order. */
  method MatchingWebcams(devices: seq<Device>, ws: seq<Webcam>) returns (ms: seq<Webcam>)
    ensures ms == Matches(devices, ws)
  {
    ms := [];
    for i := 0 to |devices|
      invariant ms == Matches(devices[..i], ws)
    {
      assert devices[..i + 1][..i] == devices[..i];
      var k := FirstWebcamNamed(ws, devices[i].name);
      if k.Some? {
        ms := ms + [ws[k.value]];
      }
    }
    assert devices[..|devices|] == devices;
  }
}
