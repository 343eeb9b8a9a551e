/** The `GSource` adapter itself: the `libusbSource` record, the four
    `GSourceFuncs` callbacks, construction, and runs of loop iterations.
    Every libusb and GLib call is an input (status codes, the timeval, the
    poll results, whether an error callback is attached). */
module Adapter {

  import opened Options
  import opened Poll
  import opened Registry
  import opened Timeout

  /** The state of one `libusbSource` (the libusb context is implicit). */
  datatype LibusbSource = LibusbSource(
    devices: seq<int>,          // libusb_device_handle values to close at finalisation
    fds: seq<PollEntry>,        // the registry, in GSList order
    timeoutError: int,          // status of the last failed libusb_get_next_timeout
    handleEventsError: int      // status of the last libusb_handle_events_timeout
  )

  /** The one `static GSourceFuncs usb_funcs` table every source shares:
      whether its `prepare` slot has been switched to `alt_prepare`. */
  datatype Funcs = Funcs(altPrepare: bool)

  /** The table as the program starts. */
  const INITIAL_FUNCS: Funcs := Funcs(false)

  /** What a `prepare` callback yields: the new state, the `*timeout_`
      out-parameter (`None` when it is left unwritten) and the return value. */
  datatype Prepared = Prepared(source: LibusbSource, timeout: Option<int>, ready: bool)

  /** `prepare`, given what `libusb_get_next_timeout` returned. Status 0 means
      no pending deadline, 1 a deadline `tv` away, anything else an error.
      For status 1 the wait is the truncated millisecond delay as stored in a
      `gint`; what that value means for the caller is stated by the lemmas
      about `Prepare` in `AdapterProperties`. */
  function Prepare(src: LibusbSource, status: int, tv: Timeval): (p: Prepared)
    ensures status == 0 ==> p == Prepared(src, Some(-1), false)
    ensures status == 1 ==>
              && p.source == src
              && p.timeout == Some(WrapGint(DeadlineMillis(tv)))
              && GINT_MIN <= p.timeout.value <= GINT_MAX
              && (p.ready <==> p.timeout.value == 0)
    ensures status != 0 && status != 1 ==>
              p == Prepared(src.(timeoutError := status), None, true)
  {
    if status == 0 then Prepared(src, Some(-1), false)
    else if status == 1 then
      var wait := WrapGint(DeadlineMillis(tv));
      Prepared(src, Some(wait), wait == 0)
    else Prepared(src.(timeoutError := status), None, true)
  }

  /** `alt_prepare`: wait without a bound and never claim readiness; libusb's
      timers then surface as descriptor readiness instead. */
  function AltPrepare(src: LibusbSource): (p: Prepared)
    ensures p.source == src && p.timeout == Some(-1) && !p.ready
  {
    Prepared(src, Some(-1), false)
  }

  /** The `prepare` slot the shared table currently points at. When it is
      `alt_prepare`, libusb is not asked for its next timeout, so the status
      and timeval are never read. */
  function PrepareWith(funcs: Funcs, src: LibusbSource, status: int, tv: Timeval): (p: Prepared)
    ensures funcs.altPrepare ==> p == Prepared(src, Some(-1), false)
    ensures !funcs.altPrepare ==> p == Prepare(src, status, tv)
  {
    if funcs.altPrepare then AltPrepare(src) else Prepare(src, status, tv)
  }

  /** `check`: ready iff the poll step reported a condition on some
      registered descriptor. The deadline-error slot plays no part. */
  function Check(src: LibusbSource): (r: bool)
    ensures r <==> exists i :: 0 <= i < |src.fds| && src.fds[i].revents != 0
  {
    AnyRevents(src.fds)
  }

  /** The arguments of one call to the `libusbSourceErrorCallback`. */
  datatype ErrorReport = ErrorReport(timeoutError: int, handleEventsError: int)

  /** What `dispatch` did: the new state, the error-callback calls it made in
      order, the timeout it passed to `libusb_handle_events_timeout` (`None`
      when it did not call it), and its return value. */
  datatype Dispatched = Dispatched(source: LibusbSource, reports: seq<ErrorReport>, handledWith: Option<Timeval>, keep: bool)

  /** The `nonblocking` timeval: a zero wait budget, so libusb only handles
      what is ready and returns at once. */
  const NONBLOCKING: Timeval := Timeval(0, 0)

  /** `dispatch`, given whether an error callback is attached and the status
      a non-blocking `libusb_handle_events_timeout` would return. */
  function Dispatch(src: LibusbSource, hasCallback: bool, eventsStatus: int): (d: Dispatched)
    ensures d.keep
    ensures |d.reports| <= 1
    ensures forall k :: 0 <= k < |d.reports| ==>
              (d.reports[k].timeoutError == 0) != (d.reports[k].handleEventsError == 0)
    ensures src.timeoutError != 0 && hasCallback ==>
              && d.source == src
              && d.handledWith.None?
              && d.reports == [ErrorReport(src.timeoutError, 0)]
    ensures !(src.timeoutError != 0 && hasCallback) ==>
              && d.handledWith == Some(Timeval(0, 0))
              && d.source == src.(handleEventsError := eventsStatus)
              && (|d.reports| == 1 <==> eventsStatus != 0 && hasCallback)
              && (|d.reports| == 1 ==> d.reports[0] == ErrorReport(0, eventsStatus))
  {
    if src.timeoutError != 0 && hasCallback then
      Dispatched(src, [ErrorReport(src.timeoutError, 0)], None, true)
    else
      var next := src.(handleEventsError := eventsStatus);
      var reports := if next.handleEventsError != 0 && hasCallback
                     then [ErrorReport(0, next.handleEventsError)] else [];
      Dispatched(next, reports, Some(NONBLOCKING), true)
  }

  /** `g_slist_free_full(fds, free_pollfd)`: each entry freed, in list order. */
  function FreeAll(fds: seq<PollEntry>): (effects: seq<Effect>)
    ensures |effects| == |fds|
    ensures forall i :: 0 <= i < |fds| ==> effects[i] == FreeEntry(fds[i])
  {
    if |fds| == 0 then [] else [FreeEntry(fds[0])] + FreeAll(fds[1..])
  }

  /** `g_slist_foreach(devices, close_device, NULL)`: each handle closed, in list order. */
  function CloseAll(devices: seq<int>): (effects: seq<Effect>)
    ensures |effects| == |devices|
    ensures forall i :: 0 <= i < |devices| ==> effects[i] == CloseDevice(devices[i])
  {
    if |devices| == 0 then [] else [CloseDevice(devices[0])] + CloseAll(devices[1..])
  }

  datatype Finalized = Finalized(source: LibusbSource, effects: seq<Effect>)

  /** `finalize`: every entry is freed exactly once without being removed
      from GLib again, the registry is emptied, every device handle is closed,
      and the libusb context is shut down last. */
  function Finalize(src: LibusbSource): (f: Finalized)
    ensures f.source == src.(fds := [])
    ensures |f.effects| == |src.fds| + |src.devices| + 1
    ensures forall i :: 0 <= i < |src.fds| ==> f.effects[i] == FreeEntry(src.fds[i])
    ensures forall i :: 0 <= i < |src.devices| ==> f.effects[|src.fds| + i] == CloseDevice(src.devices[i])
    ensures f.effects[|f.effects| - 1] == ExitContext
    ensures forall k :: 0 <= k < |f.effects| ==> !f.effects[k].RemovePoll? && !f.effects[k].AddPoll?
  {
    Finalized(src.(fds := []), FreeAll(src.fds) + CloseAll(src.devices) + [ExitContext])
  }

  /** What `init_usb_fds` did: its return code, the new state and the calls made. */
  datatype Initialised = Initialised(code: int, source: LibusbSource, effects: seq<Effect>)

  /** `init_usb_fds`, given what `libusb_get_pollfds` returned (`None` for NULL). */
  function InitUsbFds(src: LibusbSource, pollfds: Option<seq<LibusbPollFd>>): (r: Initialised)
    ensures pollfds.None? ==> r == Initialised(-1, src, [])
    ensures pollfds.Some? ==>
              && r.code == 0
              && r.source == src.(fds := r.source.fds)
              && |r.source.fds| == |pollfds.value| + |src.fds|
              && r.source.fds[|pollfds.value|..] == src.fds
              && (forall i :: 0 <= i < |pollfds.value| ==>
                    r.source.fds[|pollfds.value| - 1 - i] == EntryFor(pollfds.value[i]))
              && |r.effects| == |pollfds.value| + 1
              && (forall i :: 0 <= i < |pollfds.value| ==> r.effects[i] == AddPoll(EntryFor(pollfds.value[i])))
              && r.effects[|pollfds.value|] == SetNotifiers
  {
    match pollfds
    case None => Initialised(-1, src, [])
    case Some(ps) =>
      var loaded := LoadAll(src.fds, ps);
      Initialised(0, src.(fds := loaded.fds), loaded.effects + [SetNotifiers])
  }

  /** What `libusbSource_new` did: the shared table afterwards, the new
      source (`None` for NULL) and the calls made while building it. */
  datatype Created = Created(funcs: Funcs, source: Option<LibusbSource>, effects: seq<Effect>)

  /** `libusbSource_new`, given the status of `libusb_init`, the answer of
      `libusb_pollfds_handle_timeouts` and the result of `libusb_get_pollfds`. */
  function New(funcs: Funcs, initStatus: int, handlesTimeouts: bool,
               pollfds: Option<seq<LibusbPollFd>>): (c: Created)
    ensures c.source.Some? <==> initStatus == 0 && pollfds.Some?
    ensures initStatus != 0 ==> c == Created(funcs, None, [])
    ensures initStatus == 0 ==> c.funcs.altPrepare == (funcs.altPrepare || !handlesTimeouts)
    ensures initStatus == 0 && pollfds.None? ==> c.effects == []
    ensures c.source.Some? ==>
              && c.source.value.devices == []
              && c.source.value.timeoutError == 0
              && c.source.value.handleEventsError == 0
              && |c.source.value.fds| == |pollfds.value|
              && (forall i :: 0 <= i < |pollfds.value| ==>
                    c.source.value.fds[|pollfds.value| - 1 - i] == EntryFor(pollfds.value[i]))
              && |c.effects| == |pollfds.value| + 1
              && c.effects[|pollfds.value|] == SetNotifiers
  {
    if initStatus != 0 then Created(funcs, None, [])
    else
      var table := if !handlesTimeouts then funcs.(altPrepare := true) else funcs;
      var blank := LibusbSource([], [], 0, 0);
      var init := InitUsbFds(blank, pollfds);
      if init.code != 0 then Created(table, None, init.effects)
      else Created(table, Some(init.source), init.effects)
  }

  /** One step the main loop or libusb takes on a source, with the libusb
      results it observes. */
  datatype Event =
    | PrepareEvent(status: int, tv: Timeval)
    | CheckEvent
    | DispatchEvent(hasCallback: bool, eventsStatus: int)
    | FdAddedEvent(fd: int, events: bv16)
    | FdRemovedEvent(fd: int)

  function Step(funcs: Funcs, src: LibusbSource, e: Event): LibusbSource
  {
    match e
    case PrepareEvent(status, tv) => PrepareWith(funcs, src, status, tv).source
    case CheckEvent => src
    case DispatchEvent(cb, status) => Dispatch(src, cb, status).source
    case FdAddedEvent(fd, events) => src.(fds := FdAdded(src.fds, fd, events).fds)
    case FdRemovedEvent(fd) => src.(fds := FdRemoved(src.fds, fd).fds)
  }

  function Run(funcs: Funcs, src: LibusbSource, events: seq<Event>): LibusbSource
    decreases |events|
  {
    if |events| == 0 then src else Run(funcs, Step(funcs, src, events[0]), events[1..])
  }

}
