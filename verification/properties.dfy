/** Properties of the adapter that relate several calls: the sticky
    deadline-error slot, the shared strategy table, the registry of a freshly
    built source, the deadline conversion, and behaviour of the code that a
    caller may not expect. */
module AdapterProperties {

  import opened Options
  import opened Poll
  import opened Registry
  import opened Timeout
  import opened Adapter

  /** No step ever resets the deadline-error slot once it is set: a later
      failing query may overwrite it, but only with another error. */
  lemma {:induction false} TimeoutErrorNeverCleared(funcs: Funcs, src: LibusbSource, events: seq<Event>)
    requires src.timeoutError != 0
    ensures Run(funcs, src, events).timeoutError != 0
    decreases |events|
  {
    if |events| > 0 {
      TimeoutErrorNeverCleared(funcs, Step(funcs, src, events[0]), events[1..]);
    }
  }

  /** Hence, once a deadline query has failed, every later dispatch with a
      callback attached reports that error and nothing else, and never asks
      libusb to handle events again. */
  lemma DeadlineErrorRepeatsForever(funcs: Funcs, src: LibusbSource, events: seq<Event>, eventsStatus: int)
    requires src.timeoutError != 0
    ensures var later := Run(funcs, src, events);
            && later.timeoutError != 0
            && Dispatch(later, true, eventsStatus) == Dispatched(later, [ErrorReport(later.timeoutError, 0)], None, true)
  {
    TimeoutErrorNeverCleared(funcs, src, events);
  }

  /** A failed deadline query makes `prepare` claim readiness, and the
      following dispatch reports exactly `(status, 0)` and keeps the source. */
  lemma FailedQueryReportedNextDispatch(src: LibusbSource, status: int, tv: Timeval, eventsStatus: int)
    requires status != 0 && status != 1
    ensures var p := Prepare(src, status, tv);
            && p.ready
            && p.timeout.None?
            && var d := Dispatch(p.source, true, eventsStatus);
               d.reports == [ErrorReport(status, 0)] && d.keep && d.handledWith.None?
  {
  }

  /** Without a callback the deadline error does not short-circuit: dispatch
      handles events and overwrites the processing slot as usual. */
  lemma NoCallbackStillProcesses(src: LibusbSource, eventsStatus: int)
    requires src.timeoutError != 0
    ensures var d := Dispatch(src, false, eventsStatus);
            && d.handledWith == Some(Timeval(0, 0)) && d.reports == []
            && d.source.handleEventsError == eventsStatus
            && d.source.timeoutError == src.timeoutError
  {
  }

  /** `check` does not look at the deadline-error slot: with no descriptor
      signalled it answers "not ready" whatever that slot holds. */
  lemma CheckIgnoresTimeoutError(src: LibusbSource, e: int)
    ensures Check(src.(timeoutError := e)) == Check(src)
    ensures (forall i :: 0 <= i < |src.fds| ==> src.fds[i].revents == 0) ==> !Check(src.(timeoutError := e))
  {
  }

  /** The two error slots are not mutually exclusive: a processing failure
      followed by a failed deadline query leaves both set. */
  lemma BothErrorSlotsCanBeSet(processing: int, deadline: int, tv: Timeval)
    requires processing != 0 && deadline != 0 && deadline != 1
    ensures var s0 := LibusbSource([], [], 0, 0);
            var s1 := Dispatch(s0, true, processing).source;
            var s2 := Prepare(s1, deadline, tv).source;
            s2.timeoutError == deadline && s2.handleEventsError == processing
  {
  }

  /** Nothing in the adapter adds to the device list; every source a run
      reaches from a freshly built one has none to close. */
  lemma {:induction false} DevicesNeverPopulated(funcs: Funcs, src: LibusbSource, events: seq<Event>)
    ensures Run(funcs, src, events).devices == src.devices
    decreases |events|
  {
    if |events| > 0 {
      DevicesNeverPopulated(funcs, Step(funcs, src, events[0]), events[1..]);
    }
  }

  /** With the table as the program starts, the chosen `prepare` is
      `alt_prepare` exactly when libusb says its descriptors do NOT cover
      its timeouts. */
  lemma FirstSourceStrategy(handlesTimeouts: bool, pollfds: Option<seq<LibusbPollFd>>)
    ensures New(INITIAL_FUNCS, 0, handlesTimeouts, pollfds).funcs.altPrepare == !handlesTimeouts
  {
  }

  /** The switch to `alt_prepare` is made on the shared static table and is
      never undone: it persists for every later construction, even one whose
      descriptor enumeration then fails. */
  lemma AltPrepareSticks(funcs: Funcs, initStatus: int, handlesTimeouts: bool, pollfds: Option<seq<LibusbPollFd>>)
    requires funcs.altPrepare
    ensures New(funcs, initStatus, handlesTimeouts, pollfds).funcs.altPrepare
  {
  }

  /** A construction on a libusb that does not handle timeouts switches the
      table even when its descriptor enumeration then fails. */
  lemma FailedConstructionSwitchesTable(funcs: Funcs)
    ensures var c := New(funcs, 0, false, None);
            c.source.None? && c.funcs.altPrepare
  {
  }

  /** The descriptors of an enumeration. */
  ghost function EnumeratedFds(ps: seq<LibusbPollFd>): set<int>
  {
    set i | 0 <= i < |ps| :: ps[i].fd
  }

  /** A registry holding the descriptors of any enumeration `ps` in reverse
      order polls exactly them, and has no duplicates when `ps` has none. */
  lemma {:induction false} ReversedFdSet(fds: seq<PollEntry>, ps: seq<LibusbPollFd>)
    requires |fds| == |ps|
    requires forall k :: 0 <= k < |fds| ==> fds[k].fd == ps[|ps| - 1 - k].fd
    ensures (forall i, j :: 0 <= i < j < |ps| ==> ps[i].fd != ps[j].fd) ==> Distinct(fds)
    ensures FdSet(fds) == EnumeratedFds(ps)
  {
    var n := |ps|;
    forall x | x in FdSet(fds) ensures x in EnumeratedFds(ps) {
      var k :| 0 <= k < n && fds[k].fd == x;
      assert ps[n - 1 - k].fd == x;
    }
    forall x | x in EnumeratedFds(ps) ensures x in FdSet(fds) {
      var i :| 0 <= i < n && ps[i].fd == x;
      var k := n - 1 - i;
      assert fds[k].fd == ps[i].fd;
    }
    if forall i, j :: 0 <= i < j < n ==> ps[i].fd != ps[j].fd {
      forall a, b | 0 <= a < b < n ensures fds[a].fd != fds[b].fd {
        assert fds[a].fd == ps[n - 1 - a].fd;
        assert fds[b].fd == ps[n - 1 - b].fd;
      }
    }
  }

  /** A freshly built source polls exactly the enumerated descriptors, and
      without duplicates when libusb enumerated none twice. */
  lemma {:induction false} NewRegistryMatchesEnumeration(funcs: Funcs, handlesTimeouts: bool, ps: seq<LibusbPollFd>)
    requires forall i, j :: 0 <= i < j < |ps| ==> ps[i].fd != ps[j].fd
    ensures var c := New(funcs, 0, handlesTimeouts, Some(ps));
            && c.source.Some?
            && Distinct(c.source.value.fds)
            && FdSet(c.source.value.fds) == EnumeratedFds(ps)
  {
    var fds := New(funcs, 0, handlesTimeouts, Some(ps)).source.value.fds;
    var n := |ps|;
    forall k | 0 <= k < n ensures fds[k].fd == ps[n - 1 - k].fd {
      var i := n - 1 - k;
      assert fds[n - 1 - i] == EntryFor(ps[i]);
    }
    ReversedFdSet(fds, ps);
  }

  /** Put together: after a successful construction from a duplicate-free
      enumeration, and any later add/remove notifications in which libusb
      never re-announces an open descriptor, the registry polls exactly the
      descriptors libusb holds. */
  lemma ConstructedRegistryTracksSession(funcs: Funcs, handlesTimeouts: bool, ps: seq<LibusbPollFd>, ns: seq<Notification>)
    requires forall i, j :: 0 <= i < j < |ps| ==> ps[i].fd != ps[j].fd
    requires FreshAdds(EnumeratedFds(ps), ns)
    ensures var c := New(funcs, 0, handlesTimeouts, Some(ps));
            && c.source.Some?
            && FdSet(NotifyAll(c.source.value.fds, ns)) == SessionAfter(EnumeratedFds(ps), ns)
            && Distinct(NotifyAll(c.source.value.fds, ns))
  {
    NewRegistryMatchesEnumeration(funcs, handlesTimeouts, ps);
    var c := New(funcs, 0, handlesTimeouts, Some(ps));
    RegistryTracksSession(c.source.value.fds, EnumeratedFds(ps), ns);
  }

  /** A deadline of 1.25 s gives a 1250 ms wait and is not ready. */
  lemma PendingDeadlineExample(src: LibusbSource)
    ensures Prepare(src, 1, Timeval(1, 250000)) == Prepared(src, Some(1250), false)
  {
  }

  /** An expired deadline makes `prepare` ready without polling. */
  lemma ExpiredDeadlineExample(src: LibusbSource)
    ensures Prepare(src, 1, Timeval(0, 0)) == Prepared(src, Some(0), true)
  {
  }

  /** A deadline of 2147484 s (about 24.9 days) no longer fits the `gint`:
      the stored wait is negative, which GLib treats as "wait forever". */
  lemma LongDeadlineWrapsNegative(src: LibusbSource)
    ensures Prepare(src, 1, Timeval(2147484, 0)) == Prepared(src, Some(-2147483296), false)
  {
  }

  /** A deadline of 2^32 ms (about 49.7 days) wraps to zero and is reported
      as ready at once. */
  lemma VeryLongDeadlineWrapsToReady(src: LibusbSource)
    ensures Prepare(src, 1, Timeval(4294967, 296000)) == Prepared(src, Some(0), true)
  {
  }

  /** Finalisation leaves the registry empty, so a second pass would free
      no entry a second time; only the handle closes and the exit repeat. */
  lemma FinalizeLeavesNothingToFree(src: LibusbSource)
    ensures var f := Finalize(src);
            && f.source.fds == []
            && Finalize(f.source).effects == CloseAll(src.devices) + [ExitContext]
  {
  }

  /** For a normalised delay whose millisecond value fits a `gint`, the wait
      is the delay truncated to milliseconds (never above it, less than 1 ms
      below it), and `prepare` is ready exactly when less than 1 ms remains. */
  lemma PrepareFittingDeadline(src: LibusbSource, tv: Timeval)
    requires Normalised(tv) && TotalMicros(tv) <= MAX_FITTING_MICROS
    ensures var p := Prepare(src, 1, tv);
            && 0 <= p.timeout.value * 1000 <= TotalMicros(tv) < p.timeout.value * 1000 + 1000
            && (p.ready <==> TotalMicros(tv) < 1000)
  {
    FittingDeadlineKept(tv);
  }

  /** For every delay, the wait is negative exactly when the millisecond value
      modulo 2^32 is at least 2^31, and `prepare` is ready exactly when that
      value is a multiple of 2^32, however far away the deadline is. */
  lemma PrepareWrapAround(src: LibusbSource, tv: Timeval)
    ensures var p := Prepare(src, 1, tv);
            var residue := DeadlineMillis(tv) % GINT_RANGE;
            && (p.timeout.value < 0 <==> residue > GINT_MAX)
            && (p.ready <==> residue == 0)
  {
    WrapGintByResidue(DeadlineMillis(tv));
  }

  /** Switching the shared table also switches every source built before:
      whatever libusb would report, an existing source's next `prepare` is
      `alt_prepare`. */
  lemma LaterConstructionSwitchesEarlierSources(funcs: Funcs, earlier: LibusbSource, pollfds: Option<seq<LibusbPollFd>>,
                                                status: int, tv: Timeval)
    ensures PrepareWith(New(funcs, 0, false, pollfds).funcs, earlier, status, tv) == AltPrepare(earlier)
  {
  }

}
