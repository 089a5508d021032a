/**
 The event handler's descriptors and their registration with the kernel: what each
 command from the Dart side and each event from `epoll_wait` does to them.
 */
module EpollSpec {
  import opened Ports

  type Fd = nat

  /** The identity of a heap-allocated descriptor record; freed ones are never reused here. */
  type RecordId = nat

  const SINGLE_TOKEN_COUNT: nat := 16

  /** An event mask restricted to the two events that can be asked for. */
  datatype Interest = Interest(inEvent: bool, outEvent: bool)

  const NOTHING := Interest(false, false)
  const READING := Interest(true, false)

  /** A descriptor with one port, or a listening one with any number of ports. */
  datatype Descriptor =
    | Single(port: Port, tokens: int, mask: Interest)
    | Multiple(listeners: Listeners)

  function Mask(d: Descriptor): Interest {
    match d
    case Single(_, tokens, mask) => if tokens <= 0 then NOTHING else mask
    case Multiple(listeners) => if WantsIn(listeners) then READING else NOTHING
  }

  datatype Record = Record(fd: Fd, descriptor: Descriptor)

  /** An entry of the kernel's interest list, with the pointer it was given. */
  datatype Registration = Registration(interest: Interest, record: RecordId, edgeTriggered: bool)

  datatype Handler = Handler(
    sockets: map<Fd, RecordId>,
    records: map<RecordId, Record>,
    epoll: map<Fd, Registration>,
    nextRecord: RecordId,
    failedAdds: nat)

  // ----- registration -----

  function Update(h: Handler, r: RecordId, d: Descriptor): Handler
    requires r in h.records
  {
    h.(records := h.records[r := h.records[r].(descriptor := d)])
  }

  /** Every listener is told that the descriptor is unusable, and pays a token for it. */
  function Broadcast(d: Descriptor): Descriptor {
    match d
    case Single(port, tokens, mask) => Single(port, tokens - 1, mask)
    case Multiple(listeners) => Multiple(NotifyAll(listeners, false))
  }

  /** EPOLL_CTL_ADD: fails when the descriptor is registered already. */
  function AddToEpoll(h: Handler, r: RecordId): Handler
    requires r in h.records
  {
    var record := h.records[r];
    if record.fd in h.epoll then
      Update(h, r, Broadcast(record.descriptor)).(failedAdds := h.failedAdds + 1)
    else
      h.(epoll := h.epoll[record.fd := Registration(Mask(record.descriptor), r, record.descriptor.Single?)])
  }

  function RemoveFromEpoll(h: Handler, r: RecordId): Handler
    requires r in h.records
  {
    h.(epoll := h.epoll - {h.records[r].fd})
  }

  function UpdateEpoll(h: Handler, oldMask: Interest, r: RecordId): Handler
    requires r in h.records
  {
    var newMask := Mask(h.records[r].descriptor);
    if oldMask != NOTHING && newMask == NOTHING then RemoveFromEpoll(h, r)
    else if oldMask == NOTHING && newMask != NOTHING then AddToEpoll(h, r)
    else if oldMask != NOTHING && newMask != NOTHING && oldMask != newMask then AddToEpoll(RemoveFromEpoll(h, r), r)
    else h
  }

  /** Replaces a record's descriptor and brings the registration up to date. */
  function Change(h: Handler, r: RecordId, d: Descriptor): Handler
    requires r in h.records
  {
    UpdateEpoll(Update(h, r, d), Mask(h.records[r].descriptor), r)
  }

  // ----- commands -----

  datatype Command =
    | Close(closeSafe: bool)
    | ShutdownRead
    | ShutdownWrite
    | ReturnTokenCommand(count: nat)
    | SetEventMask(mask: Interest)

  datatype Message =
    | ForSocket(fd: Fd, listening: bool, port: Port, command: Command)
    | ForTimer
    | Shutdown

  function Fresh(listening: bool): Descriptor {
    if listening then Multiple(Listeners(map[], [])) else Single(0, SINGLE_TOKEN_COUNT, NOTHING)
  }

  /** The record for a descriptor, made on first use. */
  function GetDescriptorInfo(h: Handler, fd: Fd, listening: bool): Handler {
    if fd in h.sockets then h
    else
      h.(sockets := h.sockets[fd := h.nextRecord],
         records := h.records[h.nextRecord := Record(fd, Fresh(listening))],
         nextRecord := h.nextRecord + 1)
  }

  function WithoutPort(d: Descriptor, port: Port): Descriptor {
    match d
    case Single(_, tokens, _) => Single(0, tokens, NOTHING)
    case Multiple(listeners) => Multiple(RemovePort(listeners, port))
  }

  function WithTokens(d: Descriptor, port: Port, count: nat): Descriptor {
    match d
    case Single(p, tokens, mask) => Single(p, tokens + count, mask)
    case Multiple(listeners) =>
      if port in listeners.ports then Multiple(ReturnTokens(listeners, port, count, false)) else d
  }

  function WithMask(d: Descriptor, port: Port, mask: Interest): Descriptor {
    match d
    case Single(_, tokens, _) => Single(port, tokens, mask)
    case Multiple(listeners) => Multiple(SetPort(listeners, port, mask == READING))
  }

  /** The record of a closed descriptor is deleted. */
  function Delete(h: Handler, r: RecordId): Handler
    requires r in h.records
  {
    h.(sockets := h.sockets - {h.records[r].fd}, records := h.records - {r})
  }

  /** A command for the descriptor of a record. */
  function AfterCommand(h: Handler, r: RecordId, port: Port, command: Command): Handler
    requires r in h.records
  {
    var d := h.records[r].descriptor;
    match command
    case ShutdownRead => h
    case ShutdownWrite => h
    case ReturnTokenCommand(count) => Change(h, r, WithTokens(d, port, count))
    case SetEventMask(mask) => Change(h, r, WithMask(d, port, mask))
    case Close(closeSafe) =>
      var closed := Change(h, r, WithoutPort(d, port));
      if d.Single? || closeSafe then Delete(closed, r) else closed
  }

  function HandleMessage(h: Handler, m: Message): Handler {
    match m
    case ForTimer => h
    case Shutdown => h
    case ForSocket(fd, listening, port, command) =>
      var g := GetDescriptorInfo(h, fd, listening);
      var r := g.sockets[fd];
      if r in g.records then AfterCommand(g, r, port, command) else g
  }

  /** What the handler's assertions demand of a command for a descriptor, tokens apart. */
  predicate CommandAllowed(d: Descriptor, port: Port, command: Command) {
    && port != 0
    && match d
       case Single(p, _, _) =>
         (match command
          case ReturnTokenCommand(_) => p == port
          case SetEventMask(_) => p == 0 || p == port
          case Close(_) => p == 0 || p == port
          case _ => true)
       case Multiple(listeners) =>
         (match command
          case ReturnTokenCommand(_) => port in listeners.ports
          case SetEventMask(mask) => mask == READING || mask == NOTHING
          case Close(closeSafe) => closeSafe ==> listeners.ports.Keys <= {port}
          case _ => false)
  }

  /** Nobody ends up with more tokens than there are. */
  predicate WithinTokens(d: Descriptor, port: Port, command: Command) {
    command.ReturnTokenCommand? ==>
      match d
      case Single(_, tokens, _) => tokens + command.count <= SINGLE_TOKEN_COUNT
      case Multiple(listeners) => port in listeners.ports ==> listeners.ports[port].tokens + command.count <= TOKEN_COUNT
  }

  predicate CommandOk(d: Descriptor, port: Port, command: Command) {
    CommandAllowed(d, port, command) && WithinTokens(d, port, command)
  }

  predicate MessageOk(h: Handler, m: Message) {
    m.ForSocket? ==>
      var g := GetDescriptorInfo(h, m.fd, m.listening);
      var r := g.sockets[m.fd];
      r in g.records && CommandOk(g.records[r].descriptor, m.port, m.command)
  }

  // ----- events -----

  /** One result of `epoll_wait`: the registered pointer and the ready conditions. */
  datatype Event =
    | Interrupt
    | Timer
    | Ready(record: RecordId, inReady: bool, outReady: bool, hangup: bool, error: bool)

  /** The port that is told about an event, and the descriptor afterwards. */
  function Notify(d: Descriptor): (Port, Descriptor) {
    match d
    case Single(port, tokens, mask) => (port, Single(port, tokens - 1, mask))
    case Multiple(listeners) =>
      var (port, after) := NextNotify(listeners, false);
      (port, Multiple(after))
  }

  /** Whether an event is passed on: an error only if the descriptor is readable too. */
  predicate Telling(e: Event) {
    e.Ready? && if e.error then e.inReady else e.inReady || e.outReady || e.hangup
  }

  /** One event of a batch, interrupts excepted: they are handled after the batch. */
  function HandleEvent(h: Handler, e: Event): Handler {
    if !Telling(e) || e.record !in h.records then h
    else
      var d := h.records[e.record].descriptor;
      if e.error then Update(h, e.record, Broadcast(d)) else Change(h, e.record, Notify(d).1)
  }

  // ----- what the Dart side is told -----

  datatype Post =
    | Told(port: Port, inEvent: bool, outEvent: bool, closeEvent: bool)
    | ToldAll(ports: set<Port>)
    | Destroyed(port: Port)

  /** Whoever pays for a post. */
  function Receivers(post: Post): set<Port> {
    match post
    case Told(port, _, _, _) => {port}
    case ToldAll(ports) => ports
    case Destroyed(_) => {}
  }

  function PortsOf(d: Descriptor): set<Port> {
    match d
    case Single(port, _, _) => if port == 0 then {} else {port}
    case Multiple(listeners) => listeners.ports.Keys
  }

  /** An error goes to every port, any other condition to the port whose turn it is. */
  function EventPosts(h: Handler, e: Event): seq<Post> {
    if !Telling(e) || e.record !in h.records then []
    else
      var d := h.records[e.record].descriptor;
      if e.error then [ToldAll(PortsOf(d))] else [Told(Notify(d).0, e.inReady, e.outReady, e.hangup)]
  }

  function MessagePosts(m: Message): seq<Post> {
    if m.ForSocket? && m.command.Close? then [Destroyed(m.port)] else []
  }

  // ----- the registration invariant -----

  ghost predicate DescriptorOk(d: Descriptor) {
    match d
    case Single(port, _, mask) => mask != NOTHING ==> port != 0
    case Multiple(listeners) => ListenersOk(listeners) && 0 !in listeners.ports
  }

  /** Descriptors in the table and live records correspond one to one. */
  ghost predicate RecordsOk(h: Handler) {
    var consistent :=
      && (forall fd :: fd in h.sockets ==> h.sockets[fd] in h.records && h.records[h.sockets[fd]].fd == fd)
      && (forall r :: r in h.records ==>
            && r < h.nextRecord
            && h.records[r].fd in h.sockets && h.sockets[h.records[r].fd] == r
            && DescriptorOk(h.records[r].descriptor));
    consistent
  }

  /** A record is registered with its current mask exactly when that mask is not empty. */
  ghost predicate RegisteredOk(h: Handler, r: RecordId)
    requires r in h.records
  {
    var fd, mask := h.records[r].fd, Mask(h.records[r].descriptor);
    && (fd in h.epoll <==> mask != NOTHING)
    && (fd in h.epoll ==> h.epoll[fd] == Registration(mask, r, h.records[r].descriptor.Single?))
  }

  ghost predicate HandlerOk(h: Handler) {
    var consistent :=
      && RecordsOk(h)
      && h.epoll.Keys <= h.sockets.Keys
      && (forall r {:trigger RegisteredOk(h, r)} :: r in h.records ==> RegisteredOk(h, r))
      && h.failedAdds == 0;
    consistent
  }
}
