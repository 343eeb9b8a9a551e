/** Poll descriptors as libusb reports them and as GLib stores them, the
    translation between their readiness bits, and the side effects on GLib
    and libusb that the adapter performs (kept as abstract markers). */
module Poll {

  /** Readiness bits of <poll.h> on Linux, as carried by `libusb_pollfd.events`. */
  const POLLIN: bv16 := 0x0001
  const POLLOUT: bv16 := 0x0004

  /** GLib's `G_IO_IN` and `G_IO_OUT` conditions, as stored in `GPollFD.events`. */
  const G_IO_IN: bv16 := 0x0001
  const G_IO_OUT: bv16 := 0x0004

  /** One descriptor enumerated by `libusb_get_pollfds` or announced to the
      added-notifier: the descriptor and its `short` poll interest. */
  datatype LibusbPollFd = LibusbPollFd(fd: int, events: bv16)

  /** A `GPollFD`: the descriptor, the conditions to wait for, and the
      conditions the loop's poll step reported (`revents`). */
  datatype PollEntry = PollEntry(fd: int, events: bv16, revents: bv16)

  /** Calls into GLib and libusb whose own behaviour is not modelled. */
  datatype Effect =
    | AddPoll(entry: PollEntry)       // g_source_add_poll
    | RemovePoll(entry: PollEntry)    // g_source_remove_poll
    | FreeEntry(entry: PollEntry)     // g_slice_free of the GPollFD
    | SetNotifiers                    // libusb_set_pollfd_notifiers
    | CloseDevice(handle: int)        // libusb_close
    | ExitContext                     // libusb_exit

  /** Keeps only the read and write interest of a libusb descriptor, as
      G_IO_IN and G_IO_OUT; every other bit is dropped. */
  function TranslateEvents(events: bv16): (r: bv16)
    ensures (r & G_IO_IN != 0) <==> (events & POLLIN != 0)
    ensures (r & G_IO_OUT != 0) <==> (events & POLLOUT != 0)
    ensures r & !(G_IO_IN | G_IO_OUT) == 0
  {
    (if events & POLLIN != 0 then G_IO_IN else 0)
    | (if events & POLLOUT != 0 then G_IO_OUT else 0)
  }

  /** The zero-initialised `GPollFD` the added-notifier fills in. */
  function EntryFor(p: LibusbPollFd): PollEntry
  {
    PollEntry(p.fd, TranslateEvents(p.events), 0)
  }

}
