# libusb GSource adapter — a Dafny model

`libusb-gsource.c` plugs libusb's asynchronous I/O into a GLib main loop.
libusb has a changing set of poll descriptors and a deadline. The adapter turns
them into a `GSource`, whose `prepare`, `check` and `dispatch` callbacks the loop
runs once per iteration. It also keeps a registry of `GPollFD` entries in sync
with libusb's add/remove notifications, and it reports two classes of error
through an optional callback: a failed deadline query and a failed
event-handling call.

This project models the adapter's own decisions as pure functions over an
immutable state record, `Adapter.LibusbSource`. The record holds the registry
as a sequence in list order, the `timeout_error` and `handle_events_error`
slots, and the device list. Every libusb and GLib call is an input to the
model. These inputs are the status codes, the `struct timeval`, the `revents`
of each entry, and whether an error callback is attached. GLib and libusb
calls with side effects are recorded as abstract `Poll.Effect` markers, such as
`AddPoll`, `FreeEntry` and `SetNotifiers`.

Files:

- `option.dfy`: module `Options`, an optional value. It stands for a NULL result
  and for an out-parameter that is left unwritten.
- `poll.dfy`: module `Poll`. It holds the poll bits, the libusb and GLib
  descriptor records, the effect markers, and the POLLIN/POLLOUT to
  G_IO_IN/G_IO_OUT translation.
- `registry.dfy`: module `Registry`. It models the add and remove notifiers, the
  bulk load of `init_usb_fds`, and the readiness scan of `check`. It also proves
  that the registry tracks libusb's descriptor set.
- `timeout.dfy`: module `Timeout`. It models C's truncating division, the store
  into a `gint`, and the millisecond conversion.
- `adapter.dfy`: module `Adapter`. It models the source record, the shared
  `usb_funcs` table, `prepare`, `alt_prepare`, `check`, `dispatch`, `finalize`,
  `init_usb_fds`, `libusbSource_new`, and runs of loop and notifier events.
- `properties.dfy`: module `AdapterProperties`. It holds lemmas that relate
  several calls.

## Behaviour a caller may not expect

The model follows the code as written. The points below describe what the code
does, each backed by the lemma named beside it.

- `check` does not look at the deadline-error slot. It is ready only when some
  entry has nonzero `revents` (`AdapterProperties.CheckIgnoresTimeoutError`). A
  failed deadline query still leads to a dispatch, because `prepare` returns
  TRUE (`AdapterProperties.FailedQueryReportedNextDispatch`).
- The deadline-error short-circuit in `dispatch` needs a callback. With no
  callback, `dispatch` handles events even though the deadline error is set
  (`AdapterProperties.NoCallbackStillProcesses`).
- `timeout_error` is never cleared. Once a deadline query fails, every later
  dispatch with a callback reports that error and never handles events again
  (`AdapterProperties.DeadlineErrorRepeatsForever`).
- The two error slots can both be set at once
  (`AdapterProperties.BothErrorSlotsCanBeSet`).
- The add notifier does not deduplicate. A repeated add followed by one removal
  leaves a stale entry (`Registry.DuplicateAddLeavesStaleEntry`). The registry
  matches libusb's descriptor set only while libusb never re-announces an open
  descriptor (`Registry.RegistryTracksSession`).
- `alt_prepare` is chosen when libusb does NOT fold its timeouts into its
  descriptors. The choice is written into the one `static GSourceFuncs` table
  that every source shares, and it is never undone
  (`AdapterProperties.AltPrepareSticks`). It therefore also applies to sources
  built earlier (`AdapterProperties.LaterConstructionSwitchesEarlierSources`).
  The switch happens even when construction then fails at enumeration
  (`AdapterProperties.FailedConstructionSwitchesTable`). For this reason the
  strategy is modelled as the shared `Adapter.Funcs` table, not as a per-source
  tag.
- `tv_sec*1000 + tv_usec/1000` is computed in the width of `time_t` and then
  stored into a `gint`, which GCC reduces modulo 2^32. For every delay, the wait
  is negative exactly when the millisecond value modulo 2^32 is at least 2^31.
  GLib treats a negative wait as unbounded. `prepare` is ready exactly when that
  residue is 0 (`AdapterProperties.PrepareWrapAround`). So delays from about
  24.9 to 49.7 days give an unbounded wait. A delay of exactly 2^32 ms is
  reported as ready at once. Longer delays wrap around to small positive waits
  again. Examples: `AdapterProperties.LongDeadlineWrapsNegative` and
  `AdapterProperties.VeryLongDeadlineWrapsToReady`. Below 2^31 ms the wait is the
  truncated delay (`AdapterProperties.PrepareFittingDeadline`).
- Nothing in the file ever adds a device handle to `devices`. Every source
  therefore has an empty device list (`AdapterProperties.DevicesNeverPopulated`,
  `Adapter.New`).

## Model

| member | source | states |
|---|---|---|
| Poll.TranslateEvents | libusb-gsource.c:122-126 | G_IO_IN is set iff POLLIN was requested, G_IO_OUT iff POLLOUT was, and every other bit is dropped |
| Registry.FdAdded | libusb-gsource.c:118-130 | the registry grows by one entry at the front, with the given fd, revents 0 and the translated interest; the old entries follow unchanged; the one GLib call registers that entry |
| Registry.FirstMatch | libusb-gsource.c:137-148 | the linear search stops at the first entry with the fd, and every entry before it has another fd; it returns the registry length when no entry matches |
| Registry.FdRemoved | libusb-gsource.c:132-149 | exactly the first entry with the fd is removed, and the other entries keep their order; that entry is unregistered and then freed; an unknown fd or an empty registry changes nothing |
| Registry.AnyRevents | libusb-gsource.c:57-69 | the scan answers true iff some entry has nonzero revents, so it is false on an empty registry |
| Registry.LoadAll | libusb-gsource.c:157-159 | loading an enumeration prepends each descriptor in turn, so the registry holds them in reverse order in front of the old entries, registered in enumeration order |
| Registry.RemoveUndoesAdd | libusb-gsource.c:118-149 | removing a descriptor right after adding it restores the registry, even if the descriptor was already present |
| Registry.DuplicateAddLeavesStaleEntry | libusb-gsource.c:118-149 | adding the same descriptor twice gives two entries, and one removal leaves the descriptor polled |
| Registry.AddedFdSet | libusb-gsource.c:118-130 | an add puts its descriptor into the polled set, and it keeps the registry duplicate-free when the descriptor was not polled yet |
| Registry.RemovedFdSet | libusb-gsource.c:132-149 | on a duplicate-free registry, a removal takes exactly that descriptor out of the polled set and keeps the registry duplicate-free |
| Registry.RegistryTracksSession | libusb-gsource.c:118-149 | over any sequence of add/remove notifications that never re-announces an open descriptor, the registry stays duplicate-free and polls exactly libusb's descriptor set |
| Timeout.CDiv | libusb-gsource.c:40 | `tv_usec/1000` rounds toward zero: the remainder has the sign of the dividend and is smaller than the divisor |
| Timeout.WrapGint | libusb-gsource.c:40 | storing into a gint yields the value in the signed 32-bit range that is congruent modulo 2^32, and leaves in-range values unchanged |
| Timeout.MillisRoundDown | libusb-gsource.c:40 | for a normalised timeval, the millisecond value is never above the true delay and is less than 1 ms below it |
| Timeout.WrapGintByResidue | libusb-gsource.c:40 | the stored gint is the value's residue modulo 2^32, less 2^32 when the residue is above the gint maximum |
| Timeout.FittingDeadlineKept | libusb-gsource.c:40-41 | a delay whose millisecond value fits a gint is stored unchanged, so the wait is the delay truncated to milliseconds |
| Adapter.Prepare | libusb-gsource.c:30-47 | status 0 gives wait -1, not ready and no state change; status 1 leaves the state unchanged and gives the truncated milliseconds as stored in a gint (so within the gint range), ready iff that wait is 0; any other status is stored in timeout_error, returns ready, and leaves the wait unwritten |
| Adapter.AltPrepare | libusb-gsource.c:49-52 | the alternate prepare always waits without bound, never reports ready and changes nothing |
| Adapter.PrepareWith | libusb-gsource.c:175-178 | once the shared table points at alt_prepare, the libusb deadline is never read and no iteration is ready without polling; otherwise the normal prepare runs |
| Adapter.Check | libusb-gsource.c:54-70 | check is true iff some registered entry has nonzero revents; the deadline-error slot is not consulted |
| Adapter.Dispatch | libusb-gsource.c:72-94 | dispatch always keeps the source and reports at most once, with exactly one nonzero field; with a deadline error and a callback it reports (timeout_error, 0) and does not handle events; otherwise it handles events with a zero (non-blocking) timeval, overwrites handle_events_error, and reports (0, status) iff the status is nonzero and a callback is attached |
| Adapter.FreeAll | libusb-gsource.c:111 | each registry entry is freed once, in list order |
| Adapter.CloseAll | libusb-gsource.c:114 | each device handle is closed once, in list order |
| Adapter.Finalize | libusb-gsource.c:105-116 | the registry is emptied, and each entry is freed exactly once without being unregistered again; then every device handle is closed, and the libusb context is shut down last |
| Adapter.InitUsbFds | libusb-gsource.c:151-164 | a NULL enumeration returns -1 with nothing changed and no notifier installed; otherwise the enumerated descriptors are prepended in reverse order, the notifiers are installed after all of them are registered, and the result is 0 |
| Adapter.New | libusb-gsource.c:166-195 | a source exists iff libusb_init succeeds and enumeration succeeds; an init failure changes nothing; otherwise the shared table is switched to alt_prepare when libusb does not handle timeouts, and never switched back; a new source has both error slots 0, no devices, the enumerated registry, and its notifiers installed last |
| AdapterProperties.TimeoutErrorNeverCleared | libusb-gsource.c:43 | along any run of prepare, check, dispatch and notifier events, a nonzero timeout_error never returns to 0 |
| AdapterProperties.DeadlineErrorRepeatsForever | libusb-gsource.c:85-88 | once a deadline query has failed, every later dispatch with a callback reports (timeout_error, 0), keeps the state and does not handle events |
| AdapterProperties.FailedQueryReportedNextDispatch | libusb-gsource.c:42-44 | a failed query with status E makes prepare ready with the wait unwritten, and the next dispatch with a callback reports (E, 0) and keeps the source |
| AdapterProperties.NoCallbackStillProcesses | libusb-gsource.c:85-93 | without a callback, a pending deadline error does not stop dispatch from handling events with a zero timeval and overwriting handle_events_error, and nothing is reported |
| AdapterProperties.CheckIgnoresTimeoutError | libusb-gsource.c:60-69 | check gives the same answer whatever timeout_error holds, and it is false when no entry is signalled |
| AdapterProperties.BothErrorSlotsCanBeSet | libusb-gsource.c:43 | a processing failure followed by a failed deadline query leaves both error slots nonzero |
| AdapterProperties.DevicesNeverPopulated | libusb-gsource.c:183 | no prepare, dispatch or notifier event changes the device list |
| AdapterProperties.FirstSourceStrategy | libusb-gsource.c:176-178 | with the table in its initial state, alt_prepare is chosen exactly when libusb does not handle timeouts |
| AdapterProperties.AltPrepareSticks | libusb-gsource.c:175-178 | once the shared table is switched to alt_prepare, every later construction leaves it switched |
| AdapterProperties.FailedConstructionSwitchesTable | libusb-gsource.c:176-192 | for any table, a construction on a libusb that does not handle timeouts that then fails at enumeration returns no source but has already switched the shared table |
| AdapterProperties.NewRegistryMatchesEnumeration | libusb-gsource.c:151-164 | a new source built from a duplicate-free enumeration polls exactly the enumerated descriptors, without duplicates |
| AdapterProperties.ConstructedRegistryTracksSession | libusb-gsource.c:118-164 | after a successful construction and any notifications that never re-announce an open descriptor, the registry polls exactly libusb's descriptor set |
| AdapterProperties.PendingDeadlineExample | libusb-gsource.c:39-41 | a 1.25 s deadline gives a 1250 ms wait and is not ready |
| AdapterProperties.ExpiredDeadlineExample | libusb-gsource.c:39-41 | a zero deadline is ready without polling |
| AdapterProperties.LongDeadlineWrapsNegative | libusb-gsource.c:40 | a 2147484 s deadline gives a negative wait |
| AdapterProperties.VeryLongDeadlineWrapsToReady | libusb-gsource.c:40-41 | a 2^32 ms deadline wraps to a zero wait and is reported ready |
| AdapterProperties.PrepareFittingDeadline | libusb-gsource.c:39-41 | for a normalised delay whose milliseconds fit a gint, the wait is never above the delay and less than 1 ms below it, and prepare is ready iff under 1 ms remains |
| AdapterProperties.PrepareWrapAround | libusb-gsource.c:40-41 | for every delay, the wait is negative iff the millisecond value modulo 2^32 is at least 2^31, and prepare is ready iff that residue is 0 |
| AdapterProperties.LaterConstructionSwitchesEarlierSources | libusb-gsource.c:175-177 | a construction on a libusb that does not handle timeouts makes every existing source's next prepare the alternate one, whatever libusb would report |
| AdapterProperties.ReversedFdSet | libusb-gsource.c:157-159 | a registry holding any enumeration in reverse order polls exactly the enumerated descriptors, duplicates included; it has no duplicate entries when the enumeration has none |
| AdapterProperties.FinalizeLeavesNothingToFree | libusb-gsource.c:111-112 | after finalisation the registry is empty, so a second pass would free no entry again |

## Left out

- `print_libusb_error` and `print_libusb_transfer_error` are left out. They only format text to stderr.
- `find_usb_device`, `open_device_interface` and `open_usb_device_handle` are left out. They are sequences of libusb calls whose behaviour lives in libusb.
- The poll step that fills `revents`, the clock, and the libusb calls (`libusb_get_next_timeout`, `libusb_handle_events_timeout`, `libusb_get_pollfds`, `libusb_init`, `libusb_pollfds_handle_timeouts`) are not modelled. Their results are inputs.
- `g_source_add_poll`, `g_source_remove_poll`, `g_slice_free`, `libusb_set_pollfd_notifiers`, `libusb_close` and `libusb_exit` appear only as `Poll.Effect` markers.
- `g_source_new`, `g_slice_new0` and `libusb_set_debug` have no marker. They allocate memory or set logging only.
- Whether `g_source_destroy` runs `finalize` on the failure path of `libusbSource_new` is GLib behaviour. It is not modelled: `Adapter.New` only returns no source. The libusb context that this path may leak is not tracked.
- The `user_data` pointer passed to the error callback is not modelled. A report records only the two error codes.
- `Adapter.Prepare` computes `tv_sec*1000` with unbounded integers, so it does not model overflow of 64-bit `time_t`. That needs a delay of more than 9.2e15 seconds. Only the store into the 32-bit `gint` is wrapped.
- Concurrency is left out. Everything runs on the loop thread.
- Notifications that libusb delivers from inside `libusb_handle_events_timeout` are modelled as separate events before or after the dispatch. The notifiers touch only the registry and dispatch touches only the error slots, so the order does not change the result.
- No event models the poll step that writes `revents`. Entries a `Run` adds carry `revents` 0 and no step changes `revents`. `Adapter.Check` takes `revents` as given.
- `free(usb_fds)` in `init_usb_fds` and the allocation and freeing of GSList nodes have no effect marker. They release memory only.
