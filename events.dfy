/** Discovery events, listener dispatch (notifyWebcamGone / notifyWebcamFound, lines 248-268)
    and the trace of externally visible effects the service produces. */
module Events {
  import opened Sequences
  import opened Webcams

  datatype Kind = Added | Removed

  /** WebcamDiscoveryEvent: the webcam concerned and whether it was added or removed. */
  datatype Event = Event(webcam: Webcam, kind: Kind)

  /** A registered discovery listener; `throws` says whether its callback ends in an exception. */
  datatype Listener = Listener(id: nat, throws: bool)

  /** An externally visible effect, in the order the service causes it. */
  datatype Effect =
    | Enumerate                                       // a call of the driver's getDevices()
    | Published(roster: seq<Webcam>)                  // the roster field is assigned a new list
    | Delivered(listener: Listener, event: Event)     // webcamFound / webcamGone is invoked
    | ListenerFailed(listener: Listener, event: Event) // that invocation threw; caught and logged
    | Disposed(webcam: Webcam)                        // webcam.dispose()
    | Stored(webcams: seq<Webcam>)                    // WebcamDeallocator.store(...)
    | Unstored                                        // WebcamDeallocator.unstore()

  /** One listener invocation inside the try/catch of the dispatch loop. */
  function Call(ev: Event, l: Listener): seq<Effect>
  {
    [Delivered(l, ev)] + if l.throws then [ListenerFailed(l, ev)] else []
  }

  /** The dispatch loop over the listener snapshot. */
  function Dispatch(ev: Event, ls: seq<Listener>): seq<Effect>
  {
    if ls == [] then [] else Dispatch(ev, ls[..|ls| - 1]) + Call(ev, ls[|ls| - 1])
  }

  /** The listener an effect delivers `ev` to, if it is such a delivery. */
  function RecipientOf(e: Effect, ev: Event): seq<Listener>
  {
    if e.Delivered? && e.event == ev then [e.listener] else []
  }

  /** The event an effect delivers to `l`, if it is a delivery to `l`. */
  function ReceivedBy(e: Effect, l: Listener): seq<Event>
  {
    if e.Delivered? && e.listener == l then [e.event] else []
  }

  /** The webcam an effect disposes, if it is a disposal. */
  function DisposalOf(e: Effect): seq<Webcam>
  {
    if e.Disposed? then [e.webcam] else []
  }

  /** The listeners that received `ev` in a trace, in order of delivery. */
  function Recipients(t: seq<Effect>, ev: Event): seq<Listener>
  {
    if t == [] then [] else Recipients(t[..|t| - 1], ev) + RecipientOf(t[|t| - 1], ev)
  }

  /** The events listener `l` received in a trace, in order of delivery. */
  function Received(t: seq<Effect>, l: Listener): seq<Event>
  {
    if t == [] then [] else Received(t[..|t| - 1], l) + ReceivedBy(t[|t| - 1], l)
  }

  /** The webcams disposed in a trace, in order of disposal. */
  function Disposals(t: seq<Effect>): seq<Webcam>
  {
    if t == [] then [] else Disposals(t[..|t| - 1]) + DisposalOf(t[|t| - 1])
  }

  /** One event of the given kind per webcam, in roster order. */
  function EventsOf(ws: seq<Webcam>, kind: Kind): seq<Event>
  {
    seq(|ws|, i requires 0 <= i < |ws| => Event(ws[i], kind))
  }

  /** For each webcam: a REMOVED event to every listener, then the webcam is disposed. */
  function GoneTrace(ws: seq<Webcam>, ls: seq<Listener>): seq<Effect>
  {
    if ws == [] then []
    else
      var w := ws[|ws| - 1];
      GoneTrace(ws[..|ws| - 1], ls) + Dispatch(Event(w, Removed), ls) + [Disposed(w)]
  }

  /** For each webcam: an ADDED event to every listener. */
  function FoundTrace(ws: seq<Webcam>, ls: seq<Listener>): seq<Effect>
  {
    if ws == [] then []
    else FoundTrace(ws[..|ws| - 1], ls) + Dispatch(Event(ws[|ws| - 1], Added), ls)
  }

  /** Each webcam disposed once, in roster order. */
  function DisposalTrace(ws: seq<Webcam>): seq<Effect>
  {
    if ws == [] then [] else DisposalTrace(ws[..|ws| - 1]) + [Disposed(ws[|ws| - 1])]
  }

  lemma {:induction false} RecipientsConcat(a: seq<Effect>, b: seq<Effect>, ev: Event)
    ensures Recipients(a + b, ev) == Recipients(a, ev) + Recipients(b, ev)
    decreases |b|
  {
    if b == [] {
      assert a + b == a;
    } else {
      var n := |b| - 1;
      assert (a + b)[..|a + b| - 1] == a + b[..n];
      assert (a + b)[|a + b| - 1] == b[n];
      RecipientsConcat(a, b[..n], ev);
    }
  }

  lemma {:induction false} ReceivedConcat(a: seq<Effect>, b: seq<Effect>, l: Listener)
    ensures Received(a + b, l) == Received(a, l) + Received(b, l)
    decreases |b|
  {
    if b == [] {
      assert a + b == a;
    } else {
      var n := |b| - 1;
      assert (a + b)[..|a + b| - 1] == a + b[..n];
      assert (a + b)[|a + b| - 1] == b[n];
      ReceivedConcat(a, b[..n], l);
    }
  }

  lemma {:induction false} DisposalsConcat(a: seq<Effect>, b: seq<Effect>)
    ensures Disposals(a + b) == Disposals(a) + Disposals(b)
    decreases |b|
  {
    if b == [] {
      assert a + b == a;
    } else {
      var n := |b| - 1;
      assert (a + b)[..|a + b| - 1] == a + b[..n];
      assert (a + b)[|a + b| - 1] == b[n];
      DisposalsConcat(a, b[..n]);
    }
  }

  lemma Singleton(e: Effect, ev: Event, l: Listener)
    ensures Recipients([e], ev) == RecipientOf(e, ev)
    ensures Received([e], l) == ReceivedBy(e, l)
    ensures Disposals([e]) == DisposalOf(e)
  {
    assert [e][..0] == [];
  }

  /** One guarded invocation delivers the event to that listener only. */
  lemma CallProjections(ev: Event, x: Listener, other: Event, l: Listener)
    ensures Recipients(Call(ev, x), other) == if other == ev then [x] else []
    ensures Received(Call(ev, x), l) == if x == l then [ev] else []
    ensures Disposals(Call(ev, x)) == []
  {
    var d := Delivered(x, ev);
    Singleton(d, other, l);
    if x.throws {
      var f := ListenerFailed(x, ev);
      Singleton(f, other, l);
      RecipientsConcat([d], [f], other);
      ReceivedConcat([d], [f], l);
      DisposalsConcat([d], [f]);
    } else {
      assert Call(ev, x) == [d];
    }
  }

  /** A webcam is disposed in a trace exactly when it is among the trace's disposals. */
  lemma {:induction false} DisposedIffListed(t: seq<Effect>, w: Webcam)
    ensures Disposed(w) in t <==> w in Disposals(t)
    decreases |t|
  {
    if t != [] {
      var n := |t| - 1;
      assert t == t[..n] + [t[n]];
      DisposedIffListed(t[..n], w);
    }
  }

  /** Every effect of a dispatch is an invocation of a listener with that very event. */
  lemma {:induction false} DispatchEffects(ev: Event, ls: seq<Listener>)
    ensures forall e :: e in Dispatch(ev, ls) ==>
      (e.Delivered? || e.ListenerFailed?) && e.listener in ls && e.event == ev
    decreases |ls|
  {
    if ls != [] {
      var n := |ls| - 1;
      DispatchEffects(ev, ls[..n]);
      assert forall l :: l in ls[..n] ==> l in ls;
      assert ls[n] in ls;
    }
  }

  /** The event reaches every listener of the snapshot, in snapshot order, once per entry,
      whether or not earlier listeners threw; no other event is delivered. */
  lemma {:induction false} DispatchReachesEveryListener(ev: Event, ls: seq<Listener>, other: Event)
    ensures Recipients(Dispatch(ev, ls), other) == if other == ev then ls else []
    decreases |ls|
  {
    if ls != [] {
      var n := |ls| - 1;
      assert ls == ls[..n] + [ls[n]];
      var p, c := Dispatch(ev, ls[..n]), Call(ev, ls[n]);
      assert Dispatch(ev, ls) == p + c;
      DispatchReachesEveryListener(ev, ls[..n], other);
      CallProjections(ev, ls[n], other, ls[n]);
      RecipientsStep(p, c, ev, other, ls[..n], ls[n]);
    }
  }

  lemma RecipientsStep(p: seq<Effect>, c: seq<Effect>, ev: Event, other: Event, done: seq<Listener>, x: Listener)
    requires Recipients(p, other) == if other == ev then done else []
    requires Recipients(c, other) == if other == ev then [x] else []
    ensures Recipients(p + c, other) == if other == ev then done + [x] else []
  {
    RecipientsConcat(p, c, other);
  }

  /** Dispatching disposes nothing. */
  lemma {:induction false} DispatchDisposesNothing(ev: Event, ls: seq<Listener>)
    ensures Disposals(Dispatch(ev, ls)) == []
    decreases |ls|
  {
    if ls != [] {
      var n := |ls| - 1;
      DispatchDisposesNothing(ev, ls[..n]);
      DisposalsConcat(Dispatch(ev, ls[..n]), Call(ev, ls[n]));
      CallProjections(ev, ls[n], ev, ls[n]);
    }
  }

  /** Seen from one listener of a snapshot without repetitions: it receives the event once. */
  lemma {:induction false} DispatchReceivedOnce(ev: Event, ls: seq<Listener>, l: Listener)
    requires Distinct(ls)
    ensures Received(Dispatch(ev, ls), l) == if l in ls then [ev] else []
    decreases |ls|
  {
    if ls != [] {
      var n := |ls| - 1;
      assert Distinct(ls[..n]);
      DispatchReceivedOnce(ev, ls[..n], l);
      ReceivedConcat(Dispatch(ev, ls[..n]), Call(ev, ls[n]), l);
      CallProjections(ev, ls[n], ev, l);
      assert ls == ls[..n] + [ls[n]];
      assert l in ls <==> l in ls[..n] || l == ls[n];
      if l == ls[n] {
        assert l !in ls[..n];
      }
    }
  }

  /** Whatever the snapshot, a listener receives nothing but the dispatched event. */
  lemma {:induction false} DispatchReceivesOnly(ev: Event, ls: seq<Listener>, l: Listener)
    ensures forall e :: e in Received(Dispatch(ev, ls), l) ==> e == ev
    decreases |ls|
  {
    if ls != [] {
      var n := |ls| - 1;
      DispatchReceivesOnly(ev, ls[..n], l);
      ReceivedConcat(Dispatch(ev, ls[..n]), Call(ev, ls[n]), l);
      CallProjections(ev, ls[n], ev, l);
    }
  }

  lemma EventsOfLast(ws: seq<Webcam>, kind: Kind)
    requires ws != []
    ensures EventsOf(ws, kind) == EventsOf(ws[..|ws| - 1], kind) + [Event(ws[|ws| - 1], kind)]
  {
  }

  /** Removal handling: every listener sees one REMOVED event per webcam, in roster order. */
  lemma {:induction false} GoneTraceNotifies(ws: seq<Webcam>, ls: seq<Listener>, l: Listener)
    requires Distinct(ls)
    ensures Received(GoneTrace(ws, ls), l) == if l in ls then EventsOf(ws, Removed) else []
    decreases |ws|
  {
    if ws == [] {
      assert EventsOf(ws, Removed) == [];
    } else {
      var n := |ws| - 1;
      var w := ws[n];
      var p := GoneTrace(ws[..n], ls);
      var d := Dispatch(Event(w, Removed), ls);
      var e := Disposed(w);
      GoneTraceNotifies(ws[..n], ls, l);
      ReceivedConcat(p + d, [e], l);
      ReceivedConcat(p, d, l);
      assert [e][..0] == [];
      DispatchReceivedOnce(Event(w, Removed), ls, l);
      EventsOfLast(ws, Removed);
    }
  }

  /** Removal handling disposes exactly the notified webcams, in order. */
  lemma DisposalStep(p: seq<Effect>, d: seq<Effect>, w: Webcam)
    requires Disposals(d) == []
    ensures Disposals(p + d + [Disposed(w)]) == Disposals(p) + [w]
  {
    DisposalsConcat(p + d, [Disposed(w)]);
    DisposalsConcat(p, d);
    assert [Disposed(w)][..0] == [];
  }

  lemma {:induction false} GoneTraceDisposes(ws: seq<Webcam>, ls: seq<Listener>)
    ensures Disposals(GoneTrace(ws, ls)) == ws
    decreases |ws|
  {
    if ws != [] {
      var n := |ws| - 1;
      var w := ws[n];
      var p := GoneTrace(ws[..n], ls);
      var d := Dispatch(Event(w, Removed), ls);
      var e := Disposed(w);
      GoneTraceDisposes(ws[..n], ls);
      DispatchDisposesNothing(Event(w, Removed), ls);
      DisposalStep(p, d, w);
      assert ws == ws[..n] + [w];
    }
  }

  /** Removal handling: each REMOVED delivery is followed, later in the trace, by the
      disposal of the webcam it announced, and no ADDED event is delivered. */
  lemma {:induction false} GoneTraceDisposesAfterNotifying(ws: seq<Webcam>, ls: seq<Listener>)
    ensures forall i :: 0 <= i < |GoneTrace(ws, ls)| && GoneTrace(ws, ls)[i].Delivered? ==>
      GoneTrace(ws, ls)[i].event.kind == Removed &&
      exists j :: i < j < |GoneTrace(ws, ls)| && GoneTrace(ws, ls)[j] == Disposed(GoneTrace(ws, ls)[i].event.webcam)
    decreases |ws|
  {
    if ws != [] {
      var n := |ws| - 1;
      var w := ws[n];
      var p := GoneTrace(ws[..n], ls);
      var d := Dispatch(Event(w, Removed), ls);
      var t := GoneTrace(ws, ls);
      assert t == p + d + [Disposed(w)];
      GoneTraceDisposesAfterNotifying(ws[..n], ls);
      DispatchEffects(Event(w, Removed), ls);
      forall i | 0 <= i < |t| && t[i].Delivered?
        ensures t[i].event.kind == Removed
        ensures exists j :: i < j < |t| && t[j] == Disposed(t[i].event.webcam)
      {
        if i < |p| {
          assert t[i] == p[i];
          var j :| i < j < |p| && p[j] == Disposed(p[i].event.webcam);
          assert t[j] == p[j];
        } else {
          assert t[i] == d[i - |p|];
          assert d[i - |p|] in d;
          assert t[|t| - 1] == Disposed(w);
        }
      }
    }
  }

  /** Addition handling: every listener sees one ADDED event per webcam, in roster order. */
  lemma {:induction false} FoundTraceNotifies(ws: seq<Webcam>, ls: seq<Listener>, l: Listener)
    requires Distinct(ls)
    ensures Received(FoundTrace(ws, ls), l) == if l in ls then EventsOf(ws, Added) else []
    decreases |ws|
  {
    if ws == [] {
      assert EventsOf(ws, Added) == [];
    } else {
      var n := |ws| - 1;
      var w := ws[n];
      FoundTraceNotifies(ws[..n], ls, l);
      ReceivedConcat(FoundTrace(ws[..n], ls), Dispatch(Event(w, Added), ls), l);
      DispatchReceivedOnce(Event(w, Added), ls, l);
      EventsOfLast(ws, Added);
    }
  }

  /** Whatever the snapshot, removal handling delivers only REMOVED events for its webcams. */
  lemma {:induction false} GoneTraceReceivesOnly(ws: seq<Webcam>, ls: seq<Listener>, l: Listener)
    ensures forall e :: e in Received(GoneTrace(ws, ls), l) ==> e.kind == Removed && e.webcam in ws
    decreases |ws|
  {
    if ws != [] {
      var n := |ws| - 1;
      var w := ws[n];
      var p := GoneTrace(ws[..n], ls);
      var d := Dispatch(Event(w, Removed), ls);
      GoneTraceReceivesOnly(ws[..n], ls, l);
      DispatchReceivesOnly(Event(w, Removed), ls, l);
      ReceivedConcat(p + d, [Disposed(w)], l);
      ReceivedConcat(p, d, l);
      assert [Disposed(w)][..0] == [];
      assert forall x :: x in ws[..n] ==> x in ws;
    }
  }

  /** Whatever the snapshot, addition handling delivers only ADDED events for its webcams. */
  lemma {:induction false} FoundTraceReceivesOnly(ws: seq<Webcam>, ls: seq<Listener>, l: Listener)
    ensures forall e :: e in Received(FoundTrace(ws, ls), l) ==> e.kind == Added && e.webcam in ws
    decreases |ws|
  {
    if ws != [] {
      var n := |ws| - 1;
      FoundTraceReceivesOnly(ws[..n], ls, l);
      DispatchReceivesOnly(Event(ws[n], Added), ls, l);
      ReceivedConcat(FoundTrace(ws[..n], ls), Dispatch(Event(ws[n], Added), ls), l);
      assert forall x :: x in ws[..n] ==> x in ws;
    }
  }

  /** Addition handling disposes nothing. */
  lemma {:induction false} FoundTraceDisposesNothing(ws: seq<Webcam>, ls: seq<Listener>)
    ensures Disposals(FoundTrace(ws, ls)) == []
    decreases |ws|
  {
    if ws != [] {
      var n := |ws| - 1;
      FoundTraceDisposesNothing(ws[..n], ls);
      DisposalsConcat(FoundTrace(ws[..n], ls), Dispatch(Event(ws[n], Added), ls));
      DispatchDisposesNothing(Event(ws[n], Added), ls);
    }
  }

  /** Shutdown's disposal loop disposes exactly the roster, in order. */
  lemma {:induction false} DisposalTraceDisposesRoster(ws: seq<Webcam>)
    ensures Disposals(DisposalTrace(ws)) == ws
    decreases |ws|
  {
    if ws != [] {
      var n := |ws| - 1;
      var p := DisposalTrace(ws[..n]);
      var e := Disposed(ws[n]);
      DisposalTraceDisposesRoster(ws[..n]);
      DisposalsConcat(p, [e]);
      assert [e][..0] == [];
      assert ws == ws[..n] + [ws[n]];
    }
  }

  /** Shutdown's disposal loop notifies no listener. */
  lemma {:induction false} DisposalTraceNotifiesNoOne(ws: seq<Webcam>, l: Listener)
    ensures Received(DisposalTrace(ws), l) == []
    decreases |ws|
  {
    if ws != [] {
      var n := |ws| - 1;
      var p := DisposalTrace(ws[..n]);
      var e := Disposed(ws[n]);
      DisposalTraceNotifiesNoOne(ws[..n], l);
      ReceivedConcat(p, [e], l);
      assert [e][..0] == [];
    }
  }

  /** On a roster without repetitions, shutdown disposes every webcam exactly once. */
  lemma DisposalTraceDisposesEachOnce(ws: seq<Webcam>, w: Webcam)
    requires Distinct(ws) && w in ws
    ensures multiset(Disposals(DisposalTrace(ws)))[w] == 1
  {
    DisposalTraceDisposesRoster(ws);
    DistinctOccursOnce(ws, w);
  }
}
