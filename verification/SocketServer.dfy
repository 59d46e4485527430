/** physical_socket_server.cc: the dispatchers registered with the socket server under keys that
    are never reused, and the events the kernel is asked to report for them. The kernel's side of
    epoll is a map from descriptors to the events and the key last set. A dispatcher is named by
    its address, and its state is a value in a map. */
module SocketServer {
  import opened Options

  datatype Event = DE_READ | DE_WRITE | DE_CONNECT | DE_CLOSE | DE_ACCEPT

  // EPOLLIN and EPOLLOUT.
  datatype Poll = Poll(input: bool, output: bool)

  const NO_EVENTS := Poll(false, false)

  function GetEpollEvents(ff: set<Event>): Poll {
    Poll(DE_READ in ff || DE_ACCEPT in ff, DE_WRITE in ff || DE_CONNECT in ff)
  }

  // epoll_event.
  datatype Interest = Interest(poll: Poll, key: nat)

  /** A SocketDispatcher: its descriptor, the enabled events and, during a batch of updates, the
      events that were enabled before it. */
  datatype Socket = Socket(fd: Option<int>, enabled: set<Event>, saved: Option<set<Event>>)

  datatype World = World(byKey: map<nat, nat>, keyBy: map<nat, nat>, next: nat,
                         interest: map<int, Interest>, sockets: map<nat, Socket>)

  // ---------------------------------------------------------------------------------------
  // The registry
  // ---------------------------------------------------------------------------------------

  function Descriptor(w: World, d: nat): Option<int>
    requires d in w.sockets
  {
    w.sockets[d].fd
  }

  // What the dispatcher asks for, as epoll events.
  function Wanted(w: World, d: nat): Poll
    requires d in w.sockets
  {
    GetEpollEvents(w.sockets[d].enabled)
  }

  // The kernel's interest in a descriptor after it has been set.
  function SetInterest(interest: map<int, Interest>, fd: int, poll: Poll, key: nat): map<int, Interest> {
    if poll == NO_EVENTS then interest - {fd} else interest[fd := Interest(poll, key)]
  }

  function Register(w: World, d: nat): World {
    w.(byKey := w.byKey[w.next := d], keyBy := w.keyBy[d := w.next], next := w.next + 1)
  }

  function Added(w: World, d: nat): World
    requires d in w.sockets
  {
    if d in w.keyBy then w
    else
      match Descriptor(w, d)
      case None => Register(w, d)
      case Some(fd) => Register(w, d).(interest := SetInterest(w.interest, fd, Wanted(w, d), w.next))
  }

  function Removed(w: World, d: nat): World
    requires d in w.sockets
  {
    if d !in w.keyBy then w
    else
      var w' := w.(byKey := w.byKey - {w.keyBy[d]}, keyBy := w.keyBy - {d});
      match Descriptor(w, d)
      case None => w'
      case Some(fd) => w'.(interest := w.interest - {fd})
  }

  function Updated(w: World, d: nat): World
    requires d in w.sockets
  {
    if d !in w.keyBy || Descriptor(w, d).None? then w
    else w.(interest := SetInterest(w.interest, Descriptor(w, d).value, Wanted(w, d), w.keyBy[d]))
  }

  // ---------------------------------------------------------------------------------------
  // The dispatchers
  // ---------------------------------------------------------------------------------------

  function SetSocket(w: World, d: nat, s: Socket): World {
    w.(sockets := w.sockets[d := s])
  }

  function MaybeUpdated(w: World, d: nat, oldEvents: set<Event>): World
    requires d in w.sockets
  {
    if Wanted(w, d) != GetEpollEvents(oldEvents) && w.sockets[d].saved.None? then Updated(w, d) else w
  }

  function EventsSet(w: World, d: nat, events: set<Event>): World
    requires d in w.sockets
  {
    MaybeUpdated(SetSocket(w, d, w.sockets[d].(enabled := events)), d, w.sockets[d].enabled)
  }

  function BatchStarted(w: World, d: nat): World
    requires d in w.sockets
  {
    SetSocket(w, d, w.sockets[d].(saved := Some(w.sockets[d].enabled)))
  }

  function BatchFinished(w: World, d: nat): World
    requires d in w.sockets && w.sockets[d].saved.Some?
  {
    MaybeUpdated(SetSocket(w, d, w.sockets[d].(saved := None)), d, w.sockets[d].saved.value)
  }

  // A dispatcher that is closed in a batch had, for the kernel, no events before it.
  function Marked(w: World, d: nat): World
    requires d in w.sockets
  {
    if w.sockets[d].saved.Some? then SetSocket(w, d, w.sockets[d].(saved := Some({}))) else w
  }

  // Closing a descriptor makes the kernel forget it.
  function Shut(w: World, d: nat, fd: int): World
    requires d in w.sockets
  {
    SetSocket(w, d, w.sockets[d].(fd := None)).(interest := w.interest - {fd})
  }

  function Closed(w: World, d: nat): World
    requires d in w.sockets
  {
    match Descriptor(w, d)
    case None => w
    case Some(fd) => EventsSet(Shut(Removed(Marked(w, d), d), d, fd), d, {})
  }

  /** Create: what is open is closed, the new descriptor comes from the kernel, or there is none
      when it fails. */
  function Created(w: World, d: nat, fd: Option<int>, udp: bool): World
    requires d in w.sockets
  {
    var closed := Closed(w, d);
    var reopened := SetSocket(closed, d, closed.sockets[d].(fd := fd));
    var enabled := if udp then EventsSet(reopened, d, {DE_READ, DE_WRITE}) else reopened;
    if fd.None? then enabled else Added(enabled, d)
  }

  // The constructor of an accepted socket, and its registration.
  function Wrapped(w: World, d: nat, fd: int): World {
    Added(SetSocket(w, d, Socket(Some(fd), {DE_READ, DE_WRITE}, None)), d)
  }

  datatype Op =
    | New(d: nat)
    | Wrap(d: nat, fd: int)
    | Create(d: nat, newFd: Option<int>, udp: bool)
    | Close(d: nat)
    | SetEvents(d: nat, events: set<Event>)
    | EnableEvents(d: nat, events: set<Event>)
    | DisableEvents(d: nat, events: set<Event>)
    | StartBatch(d: nat)
    | FinishBatch(d: nat)

  function Do(w: World, op: Op): World
    requires Allowed(w, op)
  {
    match op
    case New(d) => SetSocket(w, d, Socket(None, {}, None))
    case Wrap(d, fd) => Wrapped(w, d, fd)
    case Create(d, fd, udp) => Created(w, d, fd, udp)
    case Close(d) => Closed(w, d)
    case SetEvents(d, events) => EventsSet(w, d, events)
    case EnableEvents(d, events) => EventsSet(w, d, w.sockets[d].enabled + events)
    case DisableEvents(d, events) => EventsSet(w, d, w.sockets[d].enabled - events)
    case StartBatch(d) => BatchStarted(w, d)
    case FinishBatch(d) => BatchFinished(w, d)
  }

  // Neither open nor in a batch: its destructor has run, or it has never been constructed.
  predicate Gone(w: World, d: nat) {
    d in w.sockets ==> w.sockets[d].fd.None? && w.sockets[d].saved.None?
  }

  predicate FdUnused(w: World, fd: int) {
    forall e :: e in w.sockets ==> w.sockets[e].fd != Some(fd)
  }

  /** What the program and the kernel may do: an address is used again only when its dispatcher
      is gone, the kernel gives out descriptors that are not open, and a batch is opened for a
      registered dispatcher by the event loop, one at a time. */
  predicate Allowed(w: World, op: Op) {
    match op
    case New(d) => Gone(w, d)
    case Wrap(d, fd) => Gone(w, d) && FdUnused(w, fd)
    case Create(d, fd, _) =>
      d in w.sockets && (fd.Some? ==> forall e :: e in w.sockets && e != d ==> w.sockets[e].fd != fd)
    case StartBatch(d) => d in w.sockets && d in w.keyBy && w.sockets[d].saved.None?
    case FinishBatch(d) => d in w.sockets && w.sockets[d].saved.Some?
    case _ => op.d in w.sockets
  }

  // ---------------------------------------------------------------------------------------
  // The invariant
  // ---------------------------------------------------------------------------------------

  // The two maps are inverse, and only keys that have been given out are in use.
  ghost predicate Inverse(w: World) {
    && (forall k :: k in w.byKey ==> k < w.next && w.byKey[k] in w.keyBy && w.keyBy[w.byKey[k]] == k)
    && (forall d :: d in w.keyBy ==> w.keyBy[d] in w.byKey && w.byKey[w.keyBy[d]] == d)
  }

  // Registered dispatchers are open, and no two dispatchers share a descriptor.
  ghost predicate Apart(w: World) {
    && (forall d :: d in w.keyBy ==> d in w.sockets && w.sockets[d].fd.Some?)
    && (forall d, e :: d in w.sockets && e in w.sockets && d != e && w.sockets[d].fd.Some? ==>
          w.sockets[d].fd != w.sockets[e].fd)
  }

  // The kernel reports only descriptors of registered dispatchers, with their keys.
  ghost predicate Owned(w: World) {
    forall fd :: fd in w.interest ==>
      && w.interest[fd].poll != NO_EVENTS && w.interest[fd].key in w.byKey
      && w.byKey[w.interest[fd].key] in w.sockets
      && w.sockets[w.byKey[w.interest[fd].key]].fd == Some(fd)
  }

  ghost predicate Inv(w: World) {
    Inverse(w) && Apart(w) && Owned(w)
  }

  // What the kernel reports for a dispatcher.
  function Reported(w: World, d: nat): Poll
    requires d in w.sockets
  {
    match w.sockets[d].fd
    case None => NO_EVENTS
    case Some(fd) => if fd in w.interest then w.interest[fd].poll else NO_EVENTS
  }

  // What the dispatcher wanted when the kernel was last told: before the batch, if there is one.
  function Known(w: World, d: nat): Poll
    requires d in w.sockets
  {
    if w.sockets[d].saved.Some? then GetEpollEvents(w.sockets[d].saved.value) else Wanted(w, d)
  }

  // ---------------------------------------------------------------------------------------
  // What each operation keeps
  // ---------------------------------------------------------------------------------------

  // Nothing changes for the other dispatchers.
  ghost predicate OthersKept(w: World, w': World, d: nat) {
    && (forall e :: e in w'.sockets && e != d ==> e in w.sockets)
    && (forall e :: e in w.sockets && e != d ==>
          && e in w'.sockets && w'.sockets[e] == w.sockets[e]
          && (e in w'.keyBy <==> e in w.keyBy) && Reported(w', e) == Reported(w, e))
  }

  /** A key that has been given out leads to the same open dispatcher as before, or nowhere. */
  ghost predicate KeysKept(w: World, w': World) {
    && w.next <= w'.next
    && (forall k :: k in w'.byKey && k < w.next ==>
          && k in w.byKey && w'.byKey[k] == w.byKey[k]
          && w.byKey[k] in w.sockets && w.byKey[k] in w'.sockets
          && w'.sockets[w.byKey[k]].fd == w.sockets[w.byKey[k]].fd)
  }

  lemma KeysKeptTwice(a: World, b: World, c: World)
    requires KeysKept(a, b) && KeysKept(b, c)
    ensures KeysKept(a, c)
  {
  }

  lemma OthersKeptTwice(a: World, b: World, c: World, d: nat)
    requires OthersKept(a, b, d) && OthersKept(b, c, d)
    ensures OthersKept(a, c, d)
  {
  }

  lemma OwnerOf(w: World, fd: int) returns (e: nat)
    requires Inv(w) && fd in w.interest
    ensures e in w.keyBy && e in w.sockets && w.sockets[e].fd == Some(fd)
    ensures w.interest[fd].key in w.byKey && w.interest[fd].key < w.next
    ensures w.byKey[w.interest[fd].key] == e && w.keyBy[e] == w.interest[fd].key
  {
    e := w.byKey[w.interest[fd].key];
  }

  // The kernel knows nothing of a dispatcher that is not registered.
  lemma NotReported(w: World, d: nat)
    requires Inv(w) && d in w.sockets && d !in w.keyBy && w.sockets[d].fd.Some?
    ensures w.sockets[d].fd.value !in w.interest
  {
    if w.sockets[d].fd.value in w.interest {
      var e := OwnerOf(w, w.sockets[d].fd.value);
    }
  }

  lemma RegisterInverse(w: World, d: nat)
    requires Inverse(w) && d !in w.keyBy
    ensures Inverse(Register(w, d))
    ensures w.next !in w.byKey
  {
    var w' := Register(w, d);
    assert w.next !in w.byKey;
    forall k | k in w'.byKey
      ensures k < w'.next && w'.byKey[k] in w'.keyBy && w'.keyBy[w'.byKey[k]] == k
    {
      assert k != w.next ==> k in w.byKey;
    }
  }

  lemma RegisterOthers(w: World, d: nat)
    requires Inv(w) && d in w.sockets && d !in w.keyBy
    ensures OthersKept(w, Register(w, d), d)
  {
  }

  lemma RegisterOwned(w: World, d: nat)
    requires Inv(w) && d in w.sockets && d !in w.keyBy && w.sockets[d].fd.Some?
    ensures Apart(Register(w, d)) && Owned(Register(w, d))
  {
    assert w.next !in w.byKey;
  }

  lemma RegisterKeeps(w: World, d: nat)
    requires Inv(w) && d in w.sockets && d !in w.keyBy && w.sockets[d].fd.Some?
    ensures Inv(Register(w, d)) && OthersKept(w, Register(w, d), d) && KeysKept(w, Register(w, d))
  {
    hide Inverse, Apart, Owned, OthersKept, KeysKept;
    RegisterInverse(w, d);
    RegisterOwned(w, d);
    RegisterOthers(w, d);
    RegisterKeys(w, d);
  }

  lemma RegisterKeys(w: World, d: nat)
    requires Inv(w) && d in w.sockets && d !in w.keyBy
    ensures KeysKept(w, Register(w, d))
  {
  }

  /** Adding asks the kernel for a descriptor it does not know yet, so that it never fails. */
  lemma AddedKeeps(w: World, d: nat)
    requires Inv(w) && d in w.sockets && d !in w.keyBy && w.sockets[d].fd.Some?
    ensures w.sockets[d].fd.value !in w.interest
    ensures Inv(Added(w, d)) && OthersKept(w, Added(w, d), d) && KeysKept(w, Added(w, d))
    ensures Added(w, d).sockets == w.sockets && Reported(Added(w, d), d) == Wanted(w, d)
  {
    NotReported(w, d);
    RegisterKeeps(w, d);
    UpdatedKeeps(Register(w, d), d);
    assert Added(w, d) == Updated(Register(w, d), d);
    OthersKeptTwice(w, Register(w, d), Added(w, d), d);
    KeysKeptTwice(w, Register(w, d), Added(w, d));
  }

  lemma RemovedInv(w: World, d: nat)
    requires Inv(w) && d in w.keyBy && d in w.sockets
    ensures Inv(Removed(w, d))
  {
  }

  lemma RemovedOthers(w: World, d: nat)
    requires Inv(w) && d in w.keyBy && d in w.sockets
    ensures OthersKept(w, Removed(w, d), d) && KeysKept(w, Removed(w, d))
  {
  }

  lemma RemovedKeeps(w: World, d: nat)
    requires Inv(w) && d in w.sockets
    ensures Inv(Removed(w, d)) && OthersKept(w, Removed(w, d), d) && KeysKept(w, Removed(w, d))
    ensures d !in Removed(w, d).keyBy && Removed(w, d).sockets == w.sockets
    ensures w.sockets[d].fd.Some? ==> w.sockets[d].fd.value !in Removed(w, d).interest
  {
    hide Inv, OthersKept, KeysKept;
    if d in w.keyBy {
      RemovedInv(w, d);
      RemovedOthers(w, d);
    } else {
      Reflexive(w, d);
      if w.sockets[d].fd.Some? {
        NotReported(w, d);
      }
    }
  }

  lemma Reflexive(w: World, d: nat)
    requires Inv(w)
    ensures OthersKept(w, w, d) && KeysKept(w, w)
  {
  }

  // Setting the kernel's interest in the descriptor of a registered dispatcher.
  lemma UpdatedInv(w: World, d: nat)
    requires Inv(w) && d in w.sockets && d in w.keyBy
    ensures Inv(Updated(w, d)) && Reported(Updated(w, d), d) == Wanted(w, d)
  {
  }

  lemma UpdatedOthers(w: World, d: nat)
    requires Inv(w) && d in w.sockets && d in w.keyBy
    ensures OthersKept(w, Updated(w, d), d) && KeysKept(w, Updated(w, d))
  {
  }

  lemma UpdatedKeeps(w: World, d: nat)
    requires Inv(w) && d in w.sockets
    ensures Inv(Updated(w, d)) && OthersKept(w, Updated(w, d), d) && KeysKept(w, Updated(w, d))
    ensures Updated(w, d).sockets == w.sockets && Updated(w, d).keyBy == w.keyBy
    ensures d in w.keyBy ==> Reported(Updated(w, d), d) == Wanted(w, d)
    ensures d !in w.keyBy ==> Updated(w, d) == w
  {
    hide Inv, OthersKept, KeysKept;
    if d in w.keyBy {
      UpdatedInv(w, d);
      UpdatedOthers(w, d);
    } else {
      Reflexive(w, d);
    }
  }

  lemma SetSocketInv(w: World, d: nat, s: Socket)
    requires Inv(w) && d in w.sockets && s.fd == w.sockets[d].fd
    ensures Inv(SetSocket(w, d, s))
  {
  }

  // The events of a dispatcher change, but not its descriptor.
  lemma SetSocketKeeps(w: World, d: nat, s: Socket)
    requires Inv(w) && d in w.sockets && s.fd == w.sockets[d].fd
    ensures Inv(SetSocket(w, d, s)) && OthersKept(w, SetSocket(w, d, s), d) && KeysKept(w, SetSocket(w, d, s))
    ensures Reported(SetSocket(w, d, s), d) == Reported(w, d)
  {
    SetSocketInv(w, d, s);
    SetSocketKeys(w, d, s);
    hide Inv, KeysKept;
  }

  lemma SetSocketKeys(w: World, d: nat, s: Socket)
    requires Inv(w) && d in w.sockets && s.fd == w.sockets[d].fd
    ensures KeysKept(w, SetSocket(w, d, s))
  {
  }

  lemma SetFdInv(w: World, d: nat, s: Socket)
    requires Inv(w) && d !in w.keyBy
    requires d in w.sockets && w.sockets[d].fd.Some? ==> w.sockets[d].fd.value !in w.interest
    requires forall e :: e in w.sockets && e != d && s.fd.Some? ==> w.sockets[e].fd != s.fd
    ensures Inv(SetSocket(w, d, s))
  {
  }

  // The descriptor of a dispatcher that is not registered changes.
  lemma SetFdKeeps(w: World, d: nat, s: Socket)
    requires Inv(w) && d !in w.keyBy
    requires d in w.sockets && w.sockets[d].fd.Some? ==> w.sockets[d].fd.value !in w.interest
    requires forall e :: e in w.sockets && e != d && s.fd.Some? ==> w.sockets[e].fd != s.fd
    ensures Inv(SetSocket(w, d, s)) && OthersKept(w, SetSocket(w, d, s), d) && KeysKept(w, SetSocket(w, d, s))
  {
    SetFdInv(w, d, s);
    SetFdKeys(w, d, s);
    hide Inv, KeysKept;
  }

  lemma SetFdKeys(w: World, d: nat, s: Socket)
    requires Inv(w) && d !in w.keyBy
    ensures KeysKept(w, SetSocket(w, d, s))
  {
  }

  // ---------------------------------------------------------------------------------------
  // The operations on dispatchers
  // ---------------------------------------------------------------------------------------

  lemma MaybeUpdatedKeeps(w: World, d: nat, oldEvents: set<Event>)
    requires Inv(w) && d in w.sockets
    ensures var w' := MaybeUpdated(w, d, oldEvents);
            && Inv(w') && OthersKept(w, w', d) && KeysKept(w, w') && w'.sockets == w.sockets && w'.keyBy == w.keyBy
            && (d in w.keyBy ==>
                  Reported(w', d) ==
                    if Wanted(w, d) != GetEpollEvents(oldEvents) && w.sockets[d].saved.None? then Wanted(w, d)
                    else Reported(w, d))
  {
    UpdatedKeeps(w, d);
  }

  lemma EventsSetKeeps(w: World, d: nat, events: set<Event>)
    requires Inv(w) && d in w.sockets
    ensures var w' := EventsSet(w, d, events);
            && Inv(w') && OthersKept(w, w', d) && KeysKept(w, w') && w'.keyBy == w.keyBy
            && w'.sockets == w.sockets[d := w.sockets[d].(enabled := events)]
            && (d in w.keyBy ==>
                  Reported(w', d) ==
                    if GetEpollEvents(events) != Wanted(w, d) && w.sockets[d].saved.None? then GetEpollEvents(events)
                    else Reported(w, d))
  {
    hide Inv, OthersKept, KeysKept;
    var s := w.sockets[d].(enabled := events);
    SetSocketKeeps(w, d, s);
    MaybeUpdatedKeeps(SetSocket(w, d, s), d, w.sockets[d].enabled);
    OthersKeptTwice(w, SetSocket(w, d, s), EventsSet(w, d, events), d);
    KeysKeptTwice(w, SetSocket(w, d, s), EventsSet(w, d, events));
  }

  lemma BatchStartedKeeps(w: World, d: nat)
    requires Inv(w) && d in w.sockets && w.sockets[d].saved.None?
    ensures var w' := BatchStarted(w, d);
            && Inv(w') && OthersKept(w, w', d) && KeysKept(w, w')
            && Reported(w', d) == Reported(w, d) && Known(w', d) == Known(w, d)
  {
    hide Inv, OthersKept, KeysKept;
    SetSocketKeeps(w, d, w.sockets[d].(saved := Some(w.sockets[d].enabled)));
  }

  /** When a batch ends, the kernel is told of the events wanted now exactly if they differ from
      those before the batch. */
  lemma BatchFinishedKeeps(w: World, d: nat)
    requires Inv(w) && d in w.sockets && w.sockets[d].saved.Some?
    ensures var w' := BatchFinished(w, d);
            && Inv(w') && OthersKept(w, w', d) && KeysKept(w, w') && w'.keyBy == w.keyBy
            && w'.sockets == w.sockets[d := w.sockets[d].(saved := None)]
            && (d in w.keyBy ==>
                  Reported(w', d) == if Wanted(w, d) != Known(w, d) then Wanted(w, d) else Reported(w, d))
  {
    hide Inv, OthersKept, KeysKept;
    var s := w.sockets[d].(saved := None);
    SetSocketKeeps(w, d, s);
    MaybeUpdatedKeeps(SetSocket(w, d, s), d, w.sockets[d].saved.value);
    OthersKeptTwice(w, SetSocket(w, d, s), BatchFinished(w, d), d);
    KeysKeptTwice(w, SetSocket(w, d, s), BatchFinished(w, d));
  }

  lemma MarkedKeeps(w: World, d: nat)
    requires Inv(w) && d in w.sockets
    ensures Inv(Marked(w, d)) && OthersKept(w, Marked(w, d), d) && KeysKept(w, Marked(w, d))
    ensures Marked(w, d).sockets.Keys == w.sockets.Keys && Marked(w, d).sockets[d].fd == w.sockets[d].fd
    ensures Marked(w, d).sockets[d].saved == if w.sockets[d].saved.Some? then Some({}) else None
  {
    hide Inv, OthersKept, KeysKept;
    Reflexive(w, d);
    if w.sockets[d].saved.Some? {
      SetSocketKeeps(w, d, w.sockets[d].(saved := Some({})));
    }
  }

  lemma ShutKeeps(w: World, d: nat, fd: int)
    requires Inv(w) && d in w.sockets && d !in w.keyBy && w.sockets[d].fd == Some(fd) && fd !in w.interest
    ensures Inv(Shut(w, d, fd)) && OthersKept(w, Shut(w, d, fd), d) && KeysKept(w, Shut(w, d, fd))
    ensures Shut(w, d, fd).keyBy == w.keyBy
    ensures Shut(w, d, fd).sockets == w.sockets[d := w.sockets[d].(fd := None)]
  {
    hide Inv, OthersKept, KeysKept;
    SetFdKeeps(w, d, w.sockets[d].(fd := None));
    assert w.interest - {fd} == w.interest;
  }

  lemma ClosedKeeps(w: World, d: nat)
    requires Inv(w) && d in w.sockets
    ensures var w' := Closed(w, d);
            && Inv(w') && OthersKept(w, w', d) && KeysKept(w, w')
            && d in w'.sockets && w'.sockets[d].fd.None? && d !in w'.keyBy
            && w'.sockets[d].saved == (if w.sockets[d].fd.Some? && w.sockets[d].saved.Some? then Some({})
                                       else w.sockets[d].saved)
            && w'.sockets[d].enabled == if w.sockets[d].fd.Some? then {} else w.sockets[d].enabled
  {
    if w.sockets[d].fd.Some? {
      hide Inv, OthersKept, KeysKept, Marked, Removed, Shut, EventsSet;
      var fd := w.sockets[d].fd.value;
      MarkedKeeps(w, d);
      var marked := Marked(w, d);
      RemovedKeeps(marked, d);
      var removed := Removed(marked, d);
      ShutKeeps(removed, d, fd);
      var shut := Shut(removed, d, fd);
      EventsSetKeeps(shut, d, {});
      Chain(w, marked, removed, shut, EventsSet(shut, d, {}), d);
    } else {
      Reflexive(w, d);
      assert d !in w.keyBy;
    }
  }

  lemma Chain(a: World, b: World, c: World, e: World, f: World, d: nat)
    requires OthersKept(a, b, d) && OthersKept(b, c, d) && OthersKept(c, e, d) && OthersKept(e, f, d)
    requires KeysKept(a, b) && KeysKept(b, c) && KeysKept(c, e) && KeysKept(e, f)
    ensures OthersKept(a, f, d) && KeysKept(a, f)
  {
    OthersKeptTwice(a, b, c, d);
    OthersKeptTwice(a, c, e, d);
    OthersKeptTwice(a, e, f, d);
    KeysKeptTwice(a, b, c);
    KeysKeptTwice(a, c, e);
    KeysKeptTwice(a, e, f);
  }

  // What is enabled for a socket that has just been created.
  function EnabledAfterCreate(s: Socket, udp: bool): set<Event> {
    if udp then {DE_READ, DE_WRITE} else if s.fd.Some? then {} else s.enabled
  }

  lemma CreatedKeeps(w: World, d: nat, fd: Option<int>, udp: bool)
    requires Inv(w) && d in w.sockets
    requires fd.Some? ==> forall e :: e in w.sockets && e != d ==> w.sockets[e].fd != fd
    ensures var w' := Created(w, d, fd, udp);
            && Inv(w') && OthersKept(w, w', d) && KeysKept(w, w')
            && d in w'.sockets && (d in w'.keyBy <==> fd.Some?)
            && w'.sockets[d].saved == Closed(w, d).sockets[d].saved
            && (fd.Some? ==> Reported(w', d) == Wanted(w', d) == GetEpollEvents(EnabledAfterCreate(w.sockets[d], udp)))
  {
    hide Inv, KeysKept, Closed, Added, EventsSet;
    var closed := Closed(w, d);
    ClosedKeeps(w, d);
    var s := closed.sockets[d].(fd := fd);
    var reopened := SetSocket(closed, d, s);
    OthersClosed(w, closed, d, fd);
    SetFdKeeps(closed, d, s);
    var enabled := if udp then EventsSet(reopened, d, {DE_READ, DE_WRITE}) else reopened;
    if udp {
      EventsSetKeeps(reopened, d, {DE_READ, DE_WRITE});
    }
    Reflexive(enabled, d);
    if fd.Some? {
      AddedKeeps(enabled, d);
      AddedRegisters(enabled, d);
    }
    Reflexive(reopened, d);
    Chain(w, closed, reopened, enabled, Created(w, d, fd, udp), d);
  }

  lemma AddedRegisters(w: World, d: nat)
    requires d in w.sockets
    ensures d in Added(w, d).keyBy
  {
  }

  lemma OthersClosed(w: World, closed: World, d: nat, fd: Option<int>)
    requires OthersKept(w, closed, d) && Inv(closed)
    requires fd.Some? ==> forall e :: e in w.sockets && e != d ==> w.sockets[e].fd != fd
    ensures forall e :: e in closed.sockets && e != d && fd.Some? ==> closed.sockets[e].fd != fd
  {
  }

  lemma NotRegistered(w: World, d: nat)
    requires Inv(w) && (d in w.sockets ==> w.sockets[d].fd.None?)
    ensures d !in w.keyBy
  {
  }

  lemma WrappedKeeps(w: World, d: nat, fd: int)
    requires Inv(w) && Gone(w, d) && FdUnused(w, fd)
    ensures var w' := Wrapped(w, d, fd);
            && Inv(w') && OthersKept(w, w', d) && KeysKept(w, w')
            && d in w'.sockets && d in w'.keyBy && Reported(w', d) == Wanted(w', d) && w'.sockets[d].saved.None?
  {
    hide Inv, KeysKept, OthersKept, Added;
    var s := Socket(Some(fd), {DE_READ, DE_WRITE}, None);
    NotRegistered(w, d);
    SetFdKeeps(w, d, s);
    AddedKeeps(SetSocket(w, d, s), d);
    AddedRegisters(SetSocket(w, d, s), d);
    OthersKeptTwice(w, SetSocket(w, d, s), Wrapped(w, d, fd), d);
    KeysKeptTwice(w, SetSocket(w, d, s), Wrapped(w, d, fd));
  }

  lemma NewKeeps(w: World, d: nat)
    requires Inv(w) && Gone(w, d)
    ensures var w' := SetSocket(w, d, Socket(None, {}, None));
            Inv(w') && OthersKept(w, w', d) && KeysKept(w, w') && d !in w'.keyBy
  {
    hide Inv, KeysKept, OthersKept;
    NotRegistered(w, d);
    SetFdKeeps(w, d, Socket(None, {}, None));
  }

  /** Every operation keeps the registry consistent, leaves the other dispatchers alone and
      reuses no key. */
  lemma DoKeeps(w: World, op: Op)
    requires Inv(w) && Allowed(w, op)
    ensures Inv(Do(w, op)) && OthersKept(w, Do(w, op), op.d) && KeysKept(w, Do(w, op))
  {
    hide Inv, KeysKept, OthersKept, Closed, Created, EventsSet, BatchStarted, BatchFinished, Wrapped;
    match op
    case New(d) => NewKeeps(w, d);
    case Wrap(d, fd) => WrappedKeeps(w, d, fd);
    case Create(d, fd, udp) => CreatedKeeps(w, d, fd, udp);
    case Close(d) => ClosedKeeps(w, d);
    case SetEvents(d, events) => EventsSetKeeps(w, d, events);
    case EnableEvents(d, events) => EventsSetKeeps(w, d, w.sockets[d].enabled + events);
    case DisableEvents(d, events) => EventsSetKeeps(w, d, w.sockets[d].enabled - events);
    case StartBatch(d) => BatchStartedKeeps(w, d);
    case FinishBatch(d) => BatchFinishedKeeps(w, d);
  }

  // ---------------------------------------------------------------------------------------
  // What the kernel reports that nobody wants
  // ---------------------------------------------------------------------------------------

  function EventsAfter(op: Op, enabled: set<Event>): set<Event>
    requires op.SetEvents? || op.EnableEvents? || op.DisableEvents?
  {
    match op
    case SetEvents(_, events) => events
    case EnableEvents(_, events) => enabled + events
    case DisableEvents(_, events) => enabled - events
  }

  // Opened again while its events are batched, and with events enabled.
  predicate Reopens(w: World, op: Op, d: nat)
    requires Allowed(w, op)
  {
    && op.Create? && op.d == d && op.newFd.Some? && w.sockets[d].saved.Some?
    && GetEpollEvents(EnabledAfterCreate(w.sockets[d], op.udp)) != NO_EVENTS
  }

  // Any other opening or closing, and every change of the events wanted that is not put off to
  // the end of a batch.
  predicate Settles(w: World, op: Op, d: nat)
    requires Allowed(w, op)
  {
    op.d == d && !Reopens(w, op, d) &&
    match op
    case StartBatch(_) => false
    case FinishBatch(_) => Wanted(w, d) != GetEpollEvents(w.sockets[d].saved.value)
    case New(_) => true
    case Wrap(_, _) => true
    case Create(_, _, _) => true
    case Close(_) => true
    case _ => w.sockets[d].saved.None? && GetEpollEvents(EventsAfter(op, w.sockets[d].enabled)) != Wanted(w, d)
  }

  /** The events left over from the last reopening in a batch, if there are any: they are told from
      what the program does with the dispatcher alone. */
  function Surplus(w: World, op: Op, d: nat, before: Poll): Poll
    requires Allowed(w, op)
  {
    if Reopens(w, op, d) then GetEpollEvents(EnabledAfterCreate(w.sockets[d], op.udp))
    else if Settles(w, op, d) then NO_EVENTS
    else before
  }

  /** The kernel reports what it was last told, or else the surplus, and the latter only for a
      dispatcher that wanted nothing. */
  predicate Explains(w: World, d: nat, surplus: Poll) {
    if d in w.sockets && d in w.keyBy then
      && Reported(w, d) == (if surplus != NO_EVENTS then surplus else Known(w, d))
      && (surplus != NO_EVENTS ==> Known(w, d) == NO_EVENTS)
    else
      && surplus == NO_EVENTS
      && (d in w.sockets && w.sockets[d].saved.Some? ==> w.sockets[d].saved.value == {})
  }

  lemma OthersExplained(w: World, op: Op, d: nat, surplus: Poll)
    requires Allowed(w, op) && OthersKept(w, Do(w, op), op.d) && op.d != d && Explains(w, d, surplus)
    ensures Explains(Do(w, op), d, Surplus(w, op, d, surplus))
  {
    hide Do, Allowed;
  }

  lemma EventsExplained(w: World, d: nat, events: set<Event>, surplus: Poll, after: Poll)
    requires Inv(w) && d in w.sockets && Explains(w, d, surplus)
    requires after == if w.sockets[d].saved.None? && GetEpollEvents(events) != Wanted(w, d) then NO_EVENTS else surplus
    ensures Explains(EventsSet(w, d, events), d, after)
  {
    EventsSetKeeps(w, d, events);
    hide Inv, KeysKept, OthersKept, EventsSet;
  }

  lemma FinishExplained(w: World, d: nat, surplus: Poll, after: Poll)
    requires Inv(w) && d in w.sockets && w.sockets[d].saved.Some? && Explains(w, d, surplus)
    requires after == if Wanted(w, d) != GetEpollEvents(w.sockets[d].saved.value) then NO_EVENTS else surplus
    ensures Explains(BatchFinished(w, d), d, after)
  {
    BatchFinishedKeeps(w, d);
    hide Inv, KeysKept, OthersKept, BatchFinished;
  }

  lemma CloseExplained(w: World, d: nat, surplus: Poll)
    requires Inv(w) && d in w.sockets && Explains(w, d, surplus)
    ensures Explains(Closed(w, d), d, NO_EVENTS)
  {
    ClosedKeeps(w, d);
    RegisteredIsOpen(w, d);
    hide Inv, KeysKept, OthersKept, Closed;
  }

  lemma CreateExplained(w: World, op: Op, d: nat, surplus: Poll)
    requires Inv(w) && Allowed(w, op) && op.Create? && op.d == d && Explains(w, d, surplus)
    ensures Explains(Do(w, op), d, Surplus(w, op, d, surplus))
  {
    hide Inv, KeysKept, OthersKept, Closed, Created;
    ClosedKeeps(w, d);
    CreatedKeeps(w, d, op.newFd, op.udp);
    RegisteredIsOpen(w, d);
  }

  lemma RegisteredIsOpen(w: World, d: nat)
    requires Inv(w) && d in w.sockets
    ensures d in w.keyBy ==> w.sockets[d].fd.Some?
  {
  }

  lemma OwnExplained(w: World, op: Op, surplus: Poll)
    requires Inv(w) && Allowed(w, op) && Explains(w, op.d, surplus)
    ensures Explains(Do(w, op), op.d, Surplus(w, op, op.d, surplus))
  {
    hide Inv, KeysKept, OthersKept, Closed, Created, EventsSet, BatchStarted, BatchFinished, Wrapped, Explains;
    var after := Surplus(w, op, op.d, surplus);
    match op
    case New(d) => NewExplained(w, d);
    case Wrap(d, fd) => WrapExplained(w, d, fd);
    case Create(d, fd, udp) => CreateExplained(w, op, d, surplus);
    case Close(d) => CloseExplained(w, d, surplus);
    case SetEvents(d, events) => EventsExplained(w, d, events, surplus, after);
    case EnableEvents(d, events) => EventsExplained(w, d, w.sockets[d].enabled + events, surplus, after);
    case DisableEvents(d, events) => EventsExplained(w, d, w.sockets[d].enabled - events, surplus, after);
    case StartBatch(d) => StartExplained(w, d, surplus);
    case FinishBatch(d) => FinishExplained(w, d, surplus, after);
  }

  lemma NewExplained(w: World, d: nat)
    requires Inv(w) && Gone(w, d)
    ensures Explains(SetSocket(w, d, Socket(None, {}, None)), d, NO_EVENTS)
  {
    NewKeeps(w, d);
  }

  lemma WrapExplained(w: World, d: nat, fd: int)
    requires Inv(w) && Gone(w, d) && FdUnused(w, fd)
    ensures Explains(Wrapped(w, d, fd), d, NO_EVENTS)
  {
    WrappedKeeps(w, d, fd);
    hide Inv, KeysKept, OthersKept, Wrapped;
  }

  lemma StartExplained(w: World, d: nat, surplus: Poll)
    requires Inv(w) && d in w.sockets && d in w.keyBy && w.sockets[d].saved.None? && Explains(w, d, surplus)
    ensures Explains(BatchStarted(w, d), d, surplus)
  {
    BatchStartedKeeps(w, d);
  }

  // ---------------------------------------------------------------------------------------
  // Runs
  // ---------------------------------------------------------------------------------------

  const EMPTY := World(map[], map[], 0, map[], map[])

  predicate Legal(w: World, ops: seq<Op>)
    decreases |ops|
  {
    ops == [] || (Allowed(w, ops[0]) && Legal(Do(w, ops[0]), ops[1..]))
  }

  function Run(w: World, ops: seq<Op>): World
    requires Legal(w, ops)
    decreases |ops|
  {
    if ops == [] then w else Run(Do(w, ops[0]), ops[1..])
  }

  /** Over every run the maps stay inverse, and a key that was given out before leads to the
      dispatcher it was given to, still open on the same descriptor, or nowhere. */
  lemma {:induction false} RunKeepsKeys(w: World, ops: seq<Op>)
    requires Inv(w) && Legal(w, ops)
    ensures Inv(Run(w, ops)) && KeysKept(w, Run(w, ops))
    decreases |ops|
  {
    hide Inv, KeysKept, Do, Allowed;
    if ops == [] {
      Reflexive(w, 0);
    } else {
      DoKeeps(w, ops[0]);
      RunKeepsKeys(Do(w, ops[0]), ops[1..]);
      KeysKeptTwice(w, Do(w, ops[0]), Run(w, ops));
    }
  }

  // The surplus at the end of a run.
  function RunSurplus(w: World, ops: seq<Op>, d: nat, before: Poll): Poll
    requires Legal(w, ops)
    decreases |ops|
  {
    if ops == [] then before else RunSurplus(Do(w, ops[0]), ops[1..], d, Surplus(w, ops[0], d, before))
  }

  lemma {:induction false} RunExplained(w: World, ops: seq<Op>, d: nat, surplus: Poll)
    requires Inv(w) && Legal(w, ops) && Explains(w, d, surplus)
    ensures Explains(Run(w, ops), d, RunSurplus(w, ops, d, surplus))
    decreases |ops|
  {
    hide Inv, Explains, Do, Allowed, OthersKept, KeysKept, Surplus;
    if ops != [] {
      var op := ops[0];
      DoKeeps(w, op);
      if op.d == d {
        OwnExplained(w, op, surplus);
      } else {
        OthersExplained(w, op, d, surplus);
      }
      RunExplained(Do(w, op), ops[1..], d, Surplus(w, op, d, surplus));
    }
  }

  // The worlds in which the operations of a run start.
  function Before(w: World, ops: seq<Op>): (ws: seq<World>)
    requires Legal(w, ops)
    ensures |ws| == |ops|
    ensures forall i :: 0 <= i < |ops| ==> Allowed(ws[i], ops[i])
    decreases |ops|
  {
    if ops == [] then [] else [w] + Before(Do(w, ops[0]), ops[1..])
  }

  // The i-th operation reopens the dispatcher, and none that comes later settles it.
  ghost predicate LeavesSurplus(ws: seq<World>, ops: seq<Op>, d: nat, i: nat)
    requires |ws| == |ops| && i < |ops| && forall k :: 0 <= k < |ops| ==> Allowed(ws[k], ops[k])
  {
    Reopens(ws[i], ops[i], d) && forall j :: i < j < |ops| ==> !Settles(ws[j], ops[j], d)
  }

  // No operation from the k-th on settles the dispatcher.
  ghost predicate Unsettled(ws: seq<World>, ops: seq<Op>, d: nat, k: nat)
    requires |ws| == |ops| && forall i :: 0 <= i < |ops| ==> Allowed(ws[i], ops[i])
  {
    forall j :: k <= j < |ops| ==> !Settles(ws[j], ops[j], d)
  }

  ghost predicate SurplusLeft(ws: seq<World>, ops: seq<Op>, d: nat, k: nat)
    requires |ws| == |ops| && forall i :: 0 <= i < |ops| ==> Allowed(ws[i], ops[i])
  {
    exists i :: k <= i < |ops| && LeavesSurplus(ws, ops, d, i)
  }

  /** There is a surplus at the end exactly if a reopening left one. */
  lemma {:induction false} SurplusIff(w: World, ops: seq<Op>, d: nat, before: Poll)
    requires Legal(w, ops)
    ensures var ws := Before(w, ops);
            RunSurplus(w, ops, d, before) != NO_EVENTS <==>
              SurplusLeft(ws, ops, d, 0) || (before != NO_EVENTS && Unsettled(ws, ops, d, 0))
    decreases |ops|
  {
    hide Do, Allowed, Reopens, Settles, Surplus;
    if ops != [] {
      var w', rest := Do(w, ops[0]), ops[1..];
      var ws, ws' := Before(w, ops), Before(w', rest);
      SurplusIff(w', rest, d, Surplus(w, ops[0], d, before));
      SurplusCases(w, ops[0], d, before);
      assert ws == [w] + ws';
      ShiftedBy(ws, ops, ws', rest, d);
      FirstOrLater(ws, ops, d);
      hide SurplusLeft, Unsettled, Before;
    }
  }

  lemma FirstOrLater(ws: seq<World>, ops: seq<Op>, d: nat)
    requires |ws| == |ops| > 0 && forall i :: 0 <= i < |ops| ==> Allowed(ws[i], ops[i])
    ensures Unsettled(ws, ops, d, 0) <==> !Settles(ws[0], ops[0], d) && Unsettled(ws, ops, d, 1)
    ensures SurplusLeft(ws, ops, d, 0)
            <==> (Reopens(ws[0], ops[0], d) && Unsettled(ws, ops, d, 1)) || SurplusLeft(ws, ops, d, 1)
  {
    hide Allowed, Reopens, Settles;
    assert LeavesSurplus(ws, ops, d, 0) <==> Reopens(ws[0], ops[0], d) && Unsettled(ws, ops, d, 1);
  }

  lemma SurplusCases(w: World, op: Op, d: nat, before: Poll)
    requires Allowed(w, op)
    ensures Surplus(w, op, d, before) != NO_EVENTS
            <==> Reopens(w, op, d) || (before != NO_EVENTS && !Settles(w, op, d))
    ensures Reopens(w, op, d) ==> !Settles(w, op, d)
  {
    hide Allowed;
  }

  lemma ShiftedBy(ws: seq<World>, ops: seq<Op>, ws': seq<World>, rest: seq<Op>, d: nat)
    requires |ws| == |ops| == |rest| + 1 == |ws'| + 1
    requires forall k :: 0 <= k < |ops| ==> Allowed(ws[k], ops[k])
    requires forall k :: 0 <= k < |rest| ==> Allowed(ws'[k], rest[k])
    requires ws[1..] == ws' && ops[1..] == rest
    ensures Unsettled(ws', rest, d, 0) <==> Unsettled(ws, ops, d, 1)
    ensures SurplusLeft(ws', rest, d, 0) <==> SurplusLeft(ws, ops, d, 1)
  {
    hide Allowed, Settles, Reopens;
    forall j | 1 <= j < |ops|
      ensures ws[j] == ws'[j - 1] && ops[j] == rest[j - 1]
    {
    }
    forall i | 0 <= i < |rest|
      ensures LeavesSurplus(ws', rest, d, i) <==> LeavesSurplus(ws, ops, d, i + 1)
    {
      assert forall j :: i + 1 < j < |ops| ==> ws[j] == ws'[j - 1] && ops[j] == rest[j - 1];
      assert forall j :: i < j < |rest| ==> ws'[j] == ws[j + 1] && rest[j] == ops[j + 1];
    }
    forall i | 1 <= i < |ops| && LeavesSurplus(ws, ops, d, i)
      ensures LeavesSurplus(ws', rest, d, i - 1)
    {
    }
  }

  lemma EmptyIsFine(d: nat)
    ensures Inv(EMPTY) && Explains(EMPTY, d, NO_EVENTS)
  {
  }

  /** The whole story from the start, for a registered dispatcher: the kernel reports what it wants,
      or in a batch what it wanted before, if and only if no reopening in a batch has enabled events
      for it that nothing has settled since; and if that is any events at all, they are reported. */
  lemma KernelAgreesIff(ops: seq<Op>, d: nat)
    requires Legal(EMPTY, ops)
    requires var w := Run(EMPTY, ops); d in w.keyBy && d in w.sockets
    ensures var w := Run(EMPTY, ops);
            && (w.sockets[d].saved.None? ==> Known(w, d) == Wanted(w, d))
            && (Reported(w, d) == Known(w, d) <==> !SurplusLeft(Before(EMPTY, ops), ops, d, 0))
            && (Known(w, d) != NO_EVENTS ==> Reported(w, d) == Known(w, d))
  {
    hide Inv, Legal, Run, RunSurplus, SurplusLeft, Before;
    EmptyIsFine(d);
    RunExplained(EMPTY, ops, d, NO_EVENTS);
    SurplusIff(EMPTY, ops, d, NO_EVENTS);
  }

  /** A socket that is open when it is reopened in a batch: at the end of the batch the kernel
      agrees exactly if some events are wanted then or the new socket is not a UDP socket. */
  lemma ReopenedAgreesIff(w: World, d: nat, fd: int, udp: bool, events: set<Event>)
    requires Inv(w) && Allowed(w, Create(d, Some(fd), udp))
    requires d in w.keyBy && w.sockets[d].saved.Some?
    ensures var reopened := Created(w, d, Some(fd), udp);
            && d in reopened.sockets
            && var changed := EventsSet(reopened, d, events);
            && d in changed.sockets && changed.sockets[d].saved.Some?
            && var finished := BatchFinished(changed, d);
            && d in finished.sockets
            && (Reported(finished, d) == Wanted(finished, d) <==> GetEpollEvents(events) != NO_EVENTS || !udp)
  {
    hide Inv, KeysKept, OthersKept, Created, Closed, EventsSet, BatchFinished;
    RegisteredIsOpen(w, d);
    ClosedKeeps(w, d);
    CreatedKeeps(w, d, Some(fd), udp);
    var reopened := Created(w, d, Some(fd), udp);
    EventsSetKeeps(reopened, d, events);
    BatchFinishedKeeps(EventsSet(reopened, d, events), d);
  }

  // A UDP socket is reopened in a batch, and wants nothing any more when the batch ends.
  const BOTH := {DE_READ, DE_WRITE}
  const REOPENING: seq<Op> := [
    Wrap(0, 5), StartBatch(0), Create(0, Some(6), true), DisableEvents(0, BOTH), FinishBatch(0)
  ]

  // The socket as it was wrapped on descriptor 5, and as it is after it was reopened on 6.
  function BeforeReopening(s: Socket): World {
    World(map[0 := 0], map[0 := 0], 1, map[5 := Interest(Poll(true, true), 0)], map[0 := s])
  }

  function AfterReopening(s: Socket): World {
    World(map[1 := 0], map[0 := 1], 2, map[6 := Interest(Poll(true, true), 1)], map[0 := s])
  }

  lemma WrapStep()
    ensures Allowed(EMPTY, Wrap(0, 5))
    ensures Do(EMPTY, Wrap(0, 5)) == BeforeReopening(Socket(Some(5), BOTH, None))
  {
  }

  lemma StartStep()
    ensures var w := BeforeReopening(Socket(Some(5), BOTH, None));
            Allowed(w, StartBatch(0)) && Do(w, StartBatch(0)) == BeforeReopening(Socket(Some(5), BOTH, Some(BOTH)))
  {
  }

  lemma CloseStep()
    ensures Closed(BeforeReopening(Socket(Some(5), BOTH, Some(BOTH))), 0)
            == World(map[], map[], 1, map[], map[0 := Socket(None, {}, Some({}))])
  {
    var w := BeforeReopening(Socket(Some(5), BOTH, Some(BOTH)));
    assert Removed(Marked(w, 0), 0) == World(map[], map[], 1, map[], map[0 := Socket(Some(5), BOTH, Some({}))]);
  }

  lemma CreateStep()
    ensures var w := BeforeReopening(Socket(Some(5), BOTH, Some(BOTH)));
            && Allowed(w, Create(0, Some(6), true))
            && Do(w, Create(0, Some(6), true)) == AfterReopening(Socket(Some(6), BOTH, Some({})))
  {
    CloseStep();
  }

  lemma DisableStep()
    ensures var w := AfterReopening(Socket(Some(6), BOTH, Some({})));
            && Allowed(w, DisableEvents(0, BOTH))
            && Do(w, DisableEvents(0, BOTH)) == AfterReopening(Socket(Some(6), {}, Some({})))
  {
    assert BOTH - BOTH == {};
  }

  lemma FinishStep()
    ensures var w := AfterReopening(Socket(Some(6), {}, Some({})));
            Allowed(w, FinishBatch(0)) && Do(w, FinishBatch(0)) == AfterReopening(Socket(Some(6), {}, None))
  {
  }

  lemma RunStep(w: World, ops: seq<Op>, i: nat, w': World)
    requires i < |ops| && Allowed(w, ops[i]) && Do(w, ops[i]) == w'
    ensures Legal(w, ops[i..]) <==> Legal(w', ops[i + 1..])
    ensures Legal(w, ops[i..]) ==> Run(w, ops[i..]) == Run(w', ops[i + 1..])
  {
    assert ops[i..][1..] == ops[i + 1..] && ops[i..][0] == ops[i];
  }

  /** The case that remains does occur: the kernel goes on reporting events nobody wants. */
  lemma ReopeningCanDisagree()
    ensures Legal(EMPTY, REOPENING)
    ensures Run(EMPTY, REOPENING) == AfterReopening(Socket(Some(6), {}, None))
    ensures Reported(Run(EMPTY, REOPENING), 0) == Poll(true, true)
  {
    hide Do, Allowed;
    WrapStep();
    StartStep();
    CreateStep();
    DisableStep();
    FinishStep();
    var w1, w2 := BeforeReopening(Socket(Some(5), BOTH, None)), BeforeReopening(Socket(Some(5), BOTH, Some(BOTH)));
    var w3, w4 := AfterReopening(Socket(Some(6), BOTH, Some({}))), AfterReopening(Socket(Some(6), {}, Some({})));
    RunStep(EMPTY, REOPENING, 0, w1);
    RunStep(w1, REOPENING, 1, w2);
    RunStep(w2, REOPENING, 2, w3);
    RunStep(w3, REOPENING, 3, w4);
    RunStep(w4, REOPENING, 4, AfterReopening(Socket(Some(6), {}, None)));
    assert REOPENING[5..] == [] && REOPENING[0..] == REOPENING;
  }

  // ---------------------------------------------------------------------------------------
  // Dispatching
  // ---------------------------------------------------------------------------------------

  /** The loop over the keys epoll_wait has returned: each is looked up when its turn comes, and
      the handler of the dispatcher found may do anything. */
  predicate LegalDispatch(w: World, keys: seq<nat>, handlers: seq<seq<Op>>)
    requires |keys| == |handlers|
    decreases |keys|
  {
    if keys == [] then true
    else if keys[0] in w.byKey then
      Legal(w, handlers[0]) && LegalDispatch(Run(w, handlers[0]), keys[1..], handlers[1..])
    else LegalDispatch(w, keys[1..], handlers[1..])
  }

  // The dispatcher reached by each key, and the world at the end.
  function Dispatch(w: World, keys: seq<nat>, handlers: seq<seq<Op>>): (r: (seq<Option<nat>>, World))
    requires |keys| == |handlers| && LegalDispatch(w, keys, handlers)
    ensures |r.0| == |keys|
    decreases |keys|
  {
    if keys == [] then ([], w)
    else if keys[0] in w.byKey then
      var rest := Dispatch(Run(w, handlers[0]), keys[1..], handlers[1..]);
      ([Some(w.byKey[keys[0]])] + rest.0, rest.1)
    else
      var rest := Dispatch(w, keys[1..], handlers[1..]);
      ([None] + rest.0, rest.1)
  }

  // The world when the turn of event i comes: the handlers before it have run.
  function WorldAt(w: World, keys: seq<nat>, handlers: seq<seq<Op>>, i: nat): World
    requires |keys| == |handlers| && LegalDispatch(w, keys, handlers) && i < |keys|
    decreases |keys|
  {
    if i == 0 then w
    else if keys[0] in w.byKey then WorldAt(Run(w, handlers[0]), keys[1..], handlers[1..], i - 1)
    else WorldAt(w, keys[1..], handlers[1..], i - 1)
  }

  lemma {:induction false} DispatchedSince(w0: World, w: World, keys: seq<nat>, handlers: seq<seq<Op>>, i: nat)
    requires Inv(w0) && Inv(w) && KeysKept(w0, w)
    requires |keys| == |handlers| && LegalDispatch(w, keys, handlers) && i < |keys| && keys[i] < w0.next
    ensures var at := WorldAt(w, keys, handlers, i);
            && Inv(at) && KeysKept(w0, at)
            && Dispatch(w, keys, handlers).0[i] == if keys[i] in at.byKey then Some(at.byKey[keys[i]]) else None
    decreases |keys|
  {
    hide Inv, KeysKept, Legal, Run;
    if i > 0 {
      if keys[0] in w.byKey {
        RunKeepsKeys(w, handlers[0]);
        KeysKeptTwice(w0, w, Run(w, handlers[0]));
        DispatchedSince(w0, Run(w, handlers[0]), keys[1..], handlers[1..], i - 1);
      } else {
        DispatchedSince(w0, w, keys[1..], handlers[1..], i - 1);
      }
    }
  }

  // An old key that is still registered leads where it led before.
  lemma OldKeyLeads(w: World, at: World, k: nat)
    requires Inv(w) && Inv(at) && KeysKept(w, at) && k in w.byKey && k < w.next
    ensures k in at.byKey ==> at.byKey[k] == w.byKey[k]
    ensures k in at.byKey <==> w.byKey[k] in at.keyBy && at.keyBy[w.byKey[k]] == k
  {
  }

  /** Every event reaches the very registration whose key the kernel returned, whatever the
      handlers before it have added and removed, unless they removed that registration: then,
      and only then, it reaches nothing. */
  lemma ReachesItsRegistration(w: World, fds: seq<int>, keys: seq<nat>, handlers: seq<seq<Op>>, i: nat)
    requires Inv(w) && |fds| == |keys| == |handlers| && LegalDispatch(w, keys, handlers) && i < |keys|
    requires forall k :: 0 <= k < |keys| ==> fds[k] in w.interest && w.interest[fds[k]].key == keys[k]
    ensures keys[i] in w.byKey
    ensures var e := w.byKey[keys[i]];
            var at := WorldAt(w, keys, handlers, i);
            && e in w.keyBy && w.keyBy[e] == keys[i] && e in w.sockets && w.sockets[e].fd == Some(fds[i])
            && Dispatch(w, keys, handlers).0[i] ==
               if e in at.keyBy && at.keyBy[e] == keys[i] then Some(e) else None
  {
    hide Inv, KeysKept, Legal, Run;
    Reflexive(w, 0);
    var e := OwnerOf(w, fds[i]);
    DispatchedSince(w, w, keys, handlers, i);
    OldKeyLeads(w, WorldAt(w, keys, handlers, i), keys[i]);
  }

  // epoll_ctl.
  datatype CtlOp = EPOLL_CTL_ADD | EPOLL_CTL_MOD | EPOLL_CTL_DEL
  datatype Errno = OK | EEXIST | ENOENT

  class PhysicalSocketServer {
    var dispatcherByKey: map<nat, nat>
    var keyByDispatcher: map<nat, nat>
    var nextDispatcherKey: nat
    var interest: map<int, Interest>  // the kernel's
    var sockets: map<nat, Socket>     // the dispatchers

    ghost function State(): World
      reads this
    {
      World(dispatcherByKey, keyByDispatcher, nextDispatcherKey, interest, sockets)
    }

    constructor ()
      ensures State() == EMPTY
    {
      dispatcherByKey, keyByDispatcher, nextDispatcherKey := map[], map[], 0;
      interest, sockets := map[], map[];
    }

    method EpollCtl(op: CtlOp, fd: int, event: Interest) returns (err: Errno)
      modifies `interest
      ensures err == if op == EPOLL_CTL_ADD then (if fd in old(interest) then EEXIST else OK)
                     else if fd in old(interest) then OK else ENOENT
      ensures interest == if err != OK then old(interest)
                          else if op == EPOLL_CTL_DEL then old(interest) - {fd} else old(interest)[fd := event]
    {
      if op == EPOLL_CTL_ADD && fd in interest {
        return EEXIST;
      }
      if op != EPOLL_CTL_ADD && fd !in interest {
        return ENOENT;
      }
      interest := if op == EPOLL_CTL_DEL then interest - {fd} else interest[fd := event];
      return OK;
    }

    method Add(d: nat)
      requires Inv(State()) && d in sockets
      modifies this
      ensures State() == Added(old(State()), d)
    {
      if d in keyByDispatcher {
        return;
      }
      if sockets[d].fd.Some? {
        NotReported(State(), d);
      }
      var key := nextDispatcherKey;
      nextDispatcherKey := nextDispatcherKey + 1;
      dispatcherByKey := dispatcherByKey[key := d];
      keyByDispatcher := keyByDispatcher[d := key];
      AddEpoll(d, key);
    }

    method AddEpoll(d: nat, key: nat)
      requires d in sockets && (sockets[d].fd.Some? ==> sockets[d].fd.value !in interest)
      modifies `interest
      ensures interest == match sockets[d].fd
                          case None => old(interest)
                          case Some(fd) => SetInterest(old(interest), fd, GetEpollEvents(sockets[d].enabled), key)
    {
      if sockets[d].fd.None? {
        return;
      }
      var fd := sockets[d].fd.value;
      var events := GetEpollEvents(sockets[d].enabled);
      if events == NO_EVENTS {
        assert interest - {fd} == interest;
        return;
      }
      var err := EpollCtl(EPOLL_CTL_ADD, fd, Interest(events, key));
      assert err == OK;
    }

    method Remove(d: nat)
      requires d in sockets
      modifies this
      ensures State() == Removed(old(State()), d)
    {
      if d !in keyByDispatcher {
        return;
      }
      var key := keyByDispatcher[d];
      keyByDispatcher := keyByDispatcher - {d};
      dispatcherByKey := dispatcherByKey - {key};
      RemoveEpoll(d);
    }

    method RemoveEpoll(d: nat)
      requires d in sockets
      modifies `interest
      ensures interest == match sockets[d].fd
                          case None => old(interest)
                          case Some(fd) => old(interest) - {fd}
    {
      if sockets[d].fd.None? {
        return;
      }
      var err := EpollCtl(EPOLL_CTL_DEL, sockets[d].fd.value, Interest(NO_EVENTS, 0));
    }

    method Update(d: nat)
      requires d in sockets
      modifies `interest
      ensures State() == Updated(old(State()), d)
    {
      if d !in keyByDispatcher {
        return;
      }
      UpdateEpoll(d, keyByDispatcher[d]);
    }

    method UpdateEpoll(d: nat, key: nat)
      requires d in sockets
      modifies `interest
      ensures interest == match sockets[d].fd
                          case None => old(interest)
                          case Some(fd) => SetInterest(old(interest), fd, GetEpollEvents(sockets[d].enabled), key)
    {
      if sockets[d].fd.None? {
        return;
      }
      var fd := sockets[d].fd.value;
      var event := Interest(GetEpollEvents(sockets[d].enabled), key);
      if event.poll == NO_EVENTS {
        var err := EpollCtl(EPOLL_CTL_DEL, fd, event);
      } else {
        var err := EpollCtl(EPOLL_CTL_MOD, fd, event);
        // A dispatcher that wanted nothing was taken out of the kernel's list.
        if err == ENOENT {
          err := EpollCtl(EPOLL_CTL_ADD, fd, event);
        }
      }
    }

    method MaybeUpdateDispatcher(d: nat, oldEvents: set<Event>)
      requires d in sockets
      modifies `interest
      ensures State() == MaybeUpdated(old(State()), d, oldEvents)
    {
      if GetEpollEvents(sockets[d].enabled) != GetEpollEvents(oldEvents) && sockets[d].saved.None? {
        Update(d);
      }
    }

    method SetEnabledEvents(d: nat, events: set<Event>)
      requires d in sockets
      modifies `interest, `sockets
      ensures State() == EventsSet(old(State()), d, events)
    {
      var oldEvents := sockets[d].enabled;
      sockets := sockets[d := sockets[d].(enabled := events)];
      MaybeUpdateDispatcher(d, oldEvents);
    }

    method StartBatchedEventUpdates(d: nat)
      requires d in sockets && sockets[d].saved.None?
      modifies `sockets
      ensures State() == BatchStarted(old(State()), d)
    {
      sockets := sockets[d := sockets[d].(saved := Some(sockets[d].enabled))];
    }

    method FinishBatchedEventUpdates(d: nat)
      requires d in sockets && sockets[d].saved.Some?
      modifies `interest, `sockets
      ensures State() == BatchFinished(old(State()), d)
    {
      var oldEvents := sockets[d].saved.value;
      sockets := sockets[d := sockets[d].(saved := None)];
      MaybeUpdateDispatcher(d, oldEvents);
    }

    method Close(d: nat)
      requires d in sockets
      modifies this
      ensures State() == Closed(old(State()), d)
    {
      if sockets[d].fd.None? {
        return;
      }
      var fd := sockets[d].fd.value;
      if sockets[d].saved.Some? {
        sockets := sockets[d := sockets[d].(saved := Some({}))];
      }
      Remove(d);
      // closesocket
      interest := interest - {fd};
      sockets := sockets[d := sockets[d].(fd := None)];
      SetEnabledEvents(d, {});
    }

    method Create(d: nat, newFd: Option<int>, udp: bool)
      requires Inv(State()) && Allowed(State(), Op.Create(d, newFd, udp))
      modifies this
      ensures State() == Created(old(State()), d, newFd, udp)
    {
      ghost var before := State();
      hide Inv, OthersKept, KeysKept;
      ClosedKeeps(before, d);
      OthersClosed(before, Closed(before, d), d, newFd);
      Close(d);
      ghost var closed := State();
      sockets := sockets[d := sockets[d].(fd := newFd)];
      SetFdKeeps(closed, d, closed.sockets[d].(fd := newFd));
      ghost var reopened := State();
      if udp {
        EventsSetKeeps(reopened, d, {DE_READ, DE_WRITE});
        SetEnabledEvents(d, {DE_READ, DE_WRITE});
      }
      if newFd.None? {
        return;
      }
      Add(d);
    }

    method Wrap(d: nat, fd: int)
      requires Inv(State()) && Allowed(State(), Op.Wrap(d, fd))
      modifies this
      ensures State() == Wrapped(old(State()), d, fd)
    {
      NotRegistered(State(), d);
      SetFdKeeps(State(), d, Socket(Some(fd), {DE_READ, DE_WRITE}, None));
      sockets := sockets[d := Socket(Some(fd), {DE_READ, DE_WRITE}, None)];
      Add(d);
    }

    // One operation of the program.
    method Perform(op: Op)
      requires Inv(State()) && Allowed(State(), op)
      modifies this
      ensures State() == Do(old(State()), op) && Inv(State())
    {
      DoKeeps(State(), op);
      hide Inv;
      match op {
        case New(d) => sockets := sockets[d := Socket(None, {}, None)];
        case Wrap(d, fd) => Wrap(d, fd);
        case Create(d, fd, udp) => Create(d, fd, udp);
        case Close(d) => Close(d);
        case SetEvents(d, events) => SetEnabledEvents(d, events);
        case EnableEvents(d, events) => SetEnabledEvents(d, sockets[d].enabled + events);
        case DisableEvents(d, events) => SetEnabledEvents(d, sockets[d].enabled - events);
        case StartBatch(d) => StartBatchedEventUpdates(d);
        case FinishBatch(d) => FinishBatchedEventUpdates(d);
      }
    }

    method OnEvent(ops: seq<Op>)
      requires Inv(State()) && Legal(State(), ops)
      modifies this
      ensures State() == Run(old(State()), ops) && Inv(State())
    {
      hide Inv, Do, Allowed;
      ghost var goal := Run(State(), ops);
      var rest := ops;
      while rest != []
        invariant Inv(State()) && Legal(State(), rest) && goal == Run(State(), rest)
        decreases |rest|
      {
        Perform(rest[0]);
        rest := rest[1..];
      }
    }

    /** The dispatch loop of WaitEpoll. */
    method DispatchEvents(keys: seq<nat>, handlers: seq<seq<Op>>) returns (reached: seq<Option<nat>>)
      requires Inv(State()) && |keys| == |handlers| && LegalDispatch(State(), keys, handlers)
      modifies this
      ensures (reached, State()) == Dispatch(old(State()), keys, handlers)
    {
      hide Inv, Legal, Run;
      ghost var goal := Dispatch(State(), keys, handlers);
      reached := [];
      var i := 0;
      assert keys[0..] == keys && handlers[0..] == handlers;
      assert [] + goal.0 == goal.0;
      while i < |keys|
        invariant 0 <= i <= |keys| && Inv(State())
        invariant LegalDispatch(State(), keys[i..], handlers[i..])
        invariant var rest := Dispatch(State(), keys[i..], handlers[i..]);
                  reached + rest.0 == goal.0 && rest.1 == goal.1
      {
        assert keys[i..][1..] == keys[i + 1..] && handlers[i..][1..] == handlers[i + 1..];
        ghost var rest := Dispatch(State(), keys[i..], handlers[i..]);
        if keys[i] !in dispatcherByKey {
          reached := reached + [None];
        } else {
          reached := reached + [Some(dispatcherByKey[keys[i]])];
          OnEvent(handlers[i]);
        }
        i := i + 1;
      }
      assert keys[i..] == [] && reached + [] == reached;
    }
  }
}