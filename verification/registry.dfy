/** The adapter's registry of polled descriptors (`libusbSource.fds`, a
    GSList kept here as a sequence in list order): the libusb add and remove
    notifiers, the bulk load done at construction, and the readiness scan of
    `check`. */
module Registry {

  import opened Poll

  /** A new registry together with the GLib calls made to reach it, in order. */
  datatype Update = Update(fds: seq<PollEntry>, effects: seq<Effect>)

  /** `usb_fd_added_cb`: a fresh entry is prepended and handed to GLib.
      Nothing is deduplicated. */
  function FdAdded(fds: seq<PollEntry>, fd: int, events: bv16): (u: Update)
    ensures |u.fds| == |fds| + 1
    ensures u.fds[1..] == fds
    ensures u.fds[0].fd == fd && u.fds[0].revents == 0
    ensures (u.fds[0].events & G_IO_IN != 0) <==> (events & POLLIN != 0)
    ensures (u.fds[0].events & G_IO_OUT != 0) <==> (events & POLLOUT != 0)
    ensures u.fds[0].events & !(G_IO_IN | G_IO_OUT) == 0
    ensures u.effects == [AddPoll(u.fds[0])]
  {
    var e := EntryFor(LibusbPollFd(fd, events));
    Update([e] + fds, [AddPoll(e)])
  }

  /** The linear search of `usb_fd_removed_cb`: the position of the first
      entry for `fd`, or `|fds|` when there is none. */
  function FirstMatch(fds: seq<PollEntry>, fd: int): (k: nat)
    ensures k <= |fds|
    ensures forall j :: 0 <= j < k ==> fds[j].fd != fd
    ensures k < |fds| ==> fds[k].fd == fd
  {
    if |fds| == 0 then 0
    else if fds[0].fd == fd then 0
    else 1 + FirstMatch(fds[1..], fd)
  }

  /** `usb_fd_removed_cb`: the first entry for `fd` is unregistered, freed and
      unlinked; an unknown descriptor (or an empty registry) is ignored. */
  function FdRemoved(fds: seq<PollEntry>, fd: int): (u: Update)
    ensures (forall i :: 0 <= i < |fds| ==> fds[i].fd != fd) ==> u == Update(fds, [])
    ensures forall k :: 0 <= k < |fds| && fds[k].fd == fd && (forall j :: 0 <= j < k ==> fds[j].fd != fd) ==>
              && u.fds == fds[..k] + fds[k + 1..]
              && u.effects == [RemovePoll(fds[k]), FreeEntry(fds[k])]
  {
    var k := FirstMatch(fds, fd);
    if k == |fds| then Update(fds, [])
    else Update(fds[..k] + fds[k + 1..], [RemovePoll(fds[k]), FreeEntry(fds[k])])
  }

  /** The scan of `check`: whether the poll step reported any condition on
      any registered descriptor. */
  function AnyRevents(fds: seq<PollEntry>): (r: bool)
    ensures r <==> exists i :: 0 <= i < |fds| && fds[i].revents != 0
  {
    if |fds| == 0 then false
    else if fds[0].revents != 0 then true
    else
      var rest := AnyRevents(fds[1..]);
      assert forall i :: 1 <= i < |fds| ==> fds[i] == fds[1..][i - 1];
      rest
  }

  /** The loop of `init_usb_fds`: each enumerated descriptor is passed to the
      added-notifier in turn, so the registry ends up holding them in reverse
      order in front of what it held before. */
  function LoadAll(fds: seq<PollEntry>, pollfds: seq<LibusbPollFd>): (u: Update)
    ensures |u.fds| == |pollfds| + |fds|
    ensures u.fds[|pollfds|..] == fds
    ensures forall i :: 0 <= i < |pollfds| ==> u.fds[|pollfds| - 1 - i] == EntryFor(pollfds[i])
    ensures |u.effects| == |pollfds|
    ensures forall i :: 0 <= i < |pollfds| ==> u.effects[i] == AddPoll(EntryFor(pollfds[i]))
    decreases |pollfds|
  {
    if |pollfds| == 0 then Update(fds, [])
    else
      var first := FdAdded(fds, pollfds[0].fd, pollfds[0].events);
      var rest := LoadAll(first.fds, pollfds[1..]);
      assert forall i :: 1 <= i < |pollfds| ==> pollfds[i] == pollfds[1..][i - 1];
      Update(rest.fds, first.effects + rest.effects)
  }

  /** No descriptor appears twice. */
  ghost predicate Distinct(fds: seq<PollEntry>)
  {
    forall i, j :: 0 <= i < j < |fds| ==> fds[i].fd != fds[j].fd
  }

  /** The descriptors the registry polls. */
  ghost function FdSet(fds: seq<PollEntry>): set<int>
  {
    set i | 0 <= i < |fds| :: fds[i].fd
  }

  /** Removing right after adding gives back the registry as it was, even
      when `fd` was already present: the new entry is the first match. */
  lemma RemoveUndoesAdd(fds: seq<PollEntry>, fd: int, events: bv16)
    ensures FdRemoved(FdAdded(fds, fd, events).fds, fd).fds == fds
  {
    var added := FdAdded(fds, fd, events).fds;
    assert FirstMatch(added, fd) == 0;
  }

  /** A repeated add creates a second entry, and one removal then leaves a
      stale entry for the descriptor behind. */
  lemma DuplicateAddLeavesStaleEntry(fds: seq<PollEntry>, fd: int, e1: bv16, e2: bv16)
    ensures var twice := FdAdded(FdAdded(fds, fd, e1).fds, fd, e2).fds;
            && |twice| == |fds| + 2
            && twice[0].fd == fd && twice[1].fd == fd
            && fd in FdSet(FdRemoved(twice, fd).fds)
  {
    var once := FdAdded(fds, fd, e1).fds;
    var twice := FdAdded(once, fd, e2).fds;
    RemoveUndoesAdd(once, fd, e2);
    assert FdRemoved(twice, fd).fds == once;
    assert once[0].fd == fd;
  }

  lemma AddedFdSet(fds: seq<PollEntry>, fd: int, events: bv16)
    ensures FdSet(FdAdded(fds, fd, events).fds) == {fd} + FdSet(fds)
    ensures Distinct(fds) && fd !in FdSet(fds) ==> Distinct(FdAdded(fds, fd, events).fds)
  {
    var r := FdAdded(fds, fd, events).fds;
    forall x | x in FdSet(r) ensures x in {fd} + FdSet(fds) {
      var i :| 0 <= i < |r| && r[i].fd == x;
      if i > 0 {
        assert r[i] == fds[i - 1];
      }
    }
    forall x | x in FdSet(fds) ensures x in FdSet(r) {
      var i :| 0 <= i < |fds| && fds[i].fd == x;
      assert r[i + 1] == fds[i];
    }
    if Distinct(fds) && fd !in FdSet(fds) {
      forall i, j | 0 <= i < j < |r| ensures r[i].fd != r[j].fd {
        assert r[j] == fds[j - 1];
        if i > 0 {
          assert r[i] == fds[i - 1];
        } else {
          assert fds[j - 1].fd in FdSet(fds);
        }
      }
    }
  }

  lemma RemovedFdSet(fds: seq<PollEntry>, fd: int)
    requires Distinct(fds)
    ensures FdSet(FdRemoved(fds, fd).fds) == FdSet(fds) - {fd}
    ensures Distinct(FdRemoved(fds, fd).fds)
  {
    var k := FirstMatch(fds, fd);
    var r := FdRemoved(fds, fd).fds;
    if k == |fds| {
      assert fd !in FdSet(fds);
    } else {
      assert r == fds[..k] + fds[k + 1..];
      assert forall i :: 0 <= i < k ==> r[i] == fds[i];
      assert forall i :: k <= i < |r| ==> r[i] == fds[i + 1];
      forall x | x in FdSet(r) ensures x in FdSet(fds) - {fd} {
        var i :| 0 <= i < |r| && r[i].fd == x;
        if i < k {
          assert fds[i].fd == x;
        } else {
          assert fds[i + 1].fd == x;
        }
      }
      forall x | x in FdSet(fds) - {fd} ensures x in FdSet(r) {
        var i :| 0 <= i < |fds| && fds[i].fd == x;
        if i < k {
          assert r[i].fd == x;
        } else {
          assert i != k;
          assert r[i - 1].fd == x;
        }
      }
    }
  }

  /** A notification libusb delivers about its descriptor set. */
  datatype Notification = Added(fd: int, events: bv16) | Removed(fd: int)

  function Notify(fds: seq<PollEntry>, n: Notification): seq<PollEntry>
  {
    match n
    case Added(fd, events) => FdAdded(fds, fd, events).fds
    case Removed(fd) => FdRemoved(fds, fd).fds
  }

  function NotifyAll(fds: seq<PollEntry>, ns: seq<Notification>): seq<PollEntry>
    decreases |ns|
  {
    if |ns| == 0 then fds else NotifyAll(Notify(fds, ns[0]), ns[1..])
  }

  /** The descriptor set libusb itself holds after the notifications. */
  ghost function SessionAfter(open: set<int>, ns: seq<Notification>): set<int>
    decreases |ns|
  {
    if |ns| == 0 then open
    else
      var next := match ns[0]
        case Added(fd, _) => open + {fd}
        case Removed(fd) => open - {fd};
      SessionAfter(next, ns[1..])
  }

  /** libusb announces a descriptor only when it is not already open. */
  ghost predicate FreshAdds(open: set<int>, ns: seq<Notification>)
    decreases |ns|
  {
    |ns| == 0 ||
    match ns[0]
    case Added(fd, _) => fd !in open && FreshAdds(open + {fd}, ns[1..])
    case Removed(fd) => FreshAdds(open - {fd}, ns[1..])
  }

  /** As long as libusb never announces a descriptor that is already open,
      the registry stays duplicate-free and polls exactly the descriptors
      libusb holds, whatever the order of adds and removes (removals of
      unknown descriptors included). */
  lemma {:induction false} RegistryTracksSession(fds: seq<PollEntry>, open: set<int>, ns: seq<Notification>)
    requires Distinct(fds) && FdSet(fds) == open
    requires FreshAdds(open, ns)
    ensures Distinct(NotifyAll(fds, ns))
    ensures FdSet(NotifyAll(fds, ns)) == SessionAfter(open, ns)
    decreases |ns|
  {
    if |ns| > 0 {
      match ns[0]
      case Added(fd, events) =>
        AddedFdSet(fds, fd, events);
        RegistryTracksSession(Notify(fds, ns[0]), open + {fd}, ns[1..]);
      case Removed(fd) =>
        RemovedFdSet(fds, fd);
        RegistryTracksSession(Notify(fds, ns[0]), open - {fd}, ns[1..]);
    }
  }

}
