/**
 The operating system as the server sees it: descriptors, connections and the driver.

 Everything the environment decides is an argument. The functions are total: using a
 descriptor that is not open is possible and leaves a BadDescriptor entry in the log.
 */
module Kernels {
  import opened Bits
  import opened Utils

  const POLLIN := 0x001
  const POLLERR := 0x008
  const POLLHUP := 0x010

  /** What a call hands to the driver. The data is what its pointer shows, the sizes are the struct fields. */
  datatype DriverRequest =
    | ChipId
    | Teardown(teardown: bool, sid: uint32)
    | Subkey(resv: uint32, data: seq<uint8>, dataSize: uint32, capacity: uint32)
    | Measurement(resv: uint32, data: seq<uint8>, dataSize: uint32, capacity: uint32)
    | Certificate(request: uint8, capacity: uint32)
    | Mailbox(code: uint32, urgent: uint8, data: seq<uint8>, dataSize16: uint16, capacity16: uint16)

  /** The struct fields after an ioctl, and the bytes stored at the start of the response buffer. */
  datatype IoctlResult = IoctlResult(status: int32, chipLow: uint32, chipHigh: uint32, size: uint32, stored: seq<uint8>)

  datatype Reply = OpenFails | Opens(wish: int, ioctlFails: bool, result: IoctlResult)

  /** What the environment settles while one message is handled; garbage is an uninitialised variable. */
  datatype Outcome = Outcome(reply: Reply, garbage: int32)

  datatype Incoming = RecvFails | Data(bytes: seq<uint8>)

  datatype Pending = AcceptFails | Accepts(wish: int)

  datatype Action =
    | Accepted(conn: int)
    | Received(conn: int, message: seq<uint8>, outcome: Outcome)
    | Sent(conn: int, response: seq<uint8>, failed: bool)
    | Closed(conn: int)
    | DeviceOpened(ok: bool)
    | Ioctl(request: DriverRequest)
    | BadDescriptor(fd: int)

  /**
   Open descriptors, the connection behind each client descriptor, the number of
   connections accepted so far, and everything that happened, in order.
   */
  datatype KernelState = KernelState(open: set<int>, conn: map<int, int>, next: int, log: seq<Action>)

  /** Connections are only known by open descriptors. */
  ghost predicate Sane(k: KernelState) { k.conn.Keys <= k.open }

  function LeastFrom(taken: set<int>, n: nat): (fd: nat)
    ensures fd >= n && fd !in taken
    decreases |taken|
  {
    if n !in taken then n else LeastFrom(taken - {n}, n + 1)
  }

  /** A new descriptor is never one that is open; which one it is, is up to the environment. */
  function FreshFd(open: set<int>, wish: int): (fd: nat)
    ensures fd !in open
    ensures wish >= 0 && wish !in open ==> fd == wish
  {
    if wish >= 0 && wish !in open then wish else LeastFrom(open, 0)
  }

  function Logged(k: KernelState, a: Action): KernelState { k.(log := k.log + [a]) }

  /** A new listening socket; it belongs to no connection. */
  function AfterSocket(k: KernelState, wish: int): (KernelState, int) {
    var fd: int := FreshFd(k.open, wish);
    (k.(open := k.open + {fd}), fd)
  }

  function AfterAccept(k: KernelState, listener: int, pending: Pending): (KernelState, int) {
    if listener !in k.open then (Logged(k, BadDescriptor(listener)), -1)
    else match pending
      case AcceptFails => (k, -1)
      case Accepts(wish) =>
        var fd: int := FreshFd(k.open, wish);
        (KernelState(k.open + {fd}, k.conn[fd := k.next], k.next + 1, k.log + [Accepted(k.next)]), fd)
  }

  /** At most limit bytes are delivered. A delivery is logged with the answers its handling will get. */
  function AfterReceive(k: KernelState, fd: int, limit: nat, incoming: Incoming, outcome: Outcome)
    : (KernelState, Option<seq<uint8>>)
  {
    if fd !in k.conn then (Logged(k, BadDescriptor(fd)), None)
    else match incoming
      case RecvFails => (k, None)
      case Data(bytes) =>
        var message := Delivered(bytes, limit);
        (if message == [] then k else Logged(k, Received(k.conn[fd], message, outcome)), Some(message))
  }

  function Delivered(bytes: seq<uint8>, limit: nat): seq<uint8> { if |bytes| <= limit then bytes else bytes[..limit] }

  function AfterSend(k: KernelState, fd: int, bytes: seq<uint8>, failed: bool): KernelState {
    if fd !in k.conn then Logged(k, BadDescriptor(fd)) else Logged(k, Sent(k.conn[fd], bytes, failed))
  }

  function AfterClose(k: KernelState, fd: int): KernelState {
    if fd !in k.open then Logged(k, BadDescriptor(fd))
    else KernelState(k.open - {fd}, k.conn - {fd}, k.next, if fd in k.conn then k.log + [Closed(k.conn[fd])] else k.log)
  }

  function AfterOpenDevice(k: KernelState, reply: Reply): (KernelState, int) {
    match reply
    case OpenFails => (Logged(k, DeviceOpened(false)), -1)
    case Opens(wish, _, _) =>
      var fd: int := FreshFd(k.open, wish);
      (Logged(k.(open := k.open + {fd}), DeviceOpened(true)), fd)
  }

  function AfterIoctl(k: KernelState, fd: int, request: DriverRequest): KernelState {
    if fd !in k.open then Logged(k, BadDescriptor(fd)) else Logged(k, Ioctl(request))
  }

  class Kernel {
    var state: KernelState

    constructor (initial: KernelState)
      ensures state == initial
    {
      state := initial;
    }

    method Socket(wish: int) returns (fd: int)
      modifies this
      ensures (state, fd) == AfterSocket(old(state), wish)
    {
      var (k, n) := AfterSocket(state, wish);
      state, fd := k, n;
    }

    method Accept(listener: int, pending: Pending) returns (fd: int)
      modifies this
      ensures (state, fd) == AfterAccept(old(state), listener, pending)
    {
      var (k, n) := AfterAccept(state, listener, pending);
      state, fd := k, n;
    }

    /** recv: None is the -1 return; otherwise the bytes now at the start of the buffer. */
    method Receive(fd: int, buffer: ByteVector, incoming: Incoming, outcome: Outcome) returns (size: int)
      modifies this, buffer
      ensures state == AfterReceive(old(state), fd, |old(buffer.bytes)|, incoming, outcome).0
      ensures var got := AfterReceive(old(state), fd, |old(buffer.bytes)|, incoming, outcome).1;
              && size == (if got.None? then -1 else |got.value|)
              && buffer.bytes == if got.None? then old(buffer.bytes) else Overwritten(old(buffer.bytes), got.value)
    {
      var (k, got) := AfterReceive(state, fd, |buffer.bytes|, incoming, outcome);
      state := k;
      if got.None? {
        return -1;
      }
      buffer.bytes := Overwritten(buffer.bytes, got.value);
      return |got.value|;
    }

    method Send(fd: int, bytes: seq<uint8>, failed: bool)
      modifies this
      ensures state == AfterSend(old(state), fd, bytes, failed)
    {
      state := AfterSend(state, fd, bytes, failed);
    }

    method Close(fd: int)
      modifies this
      ensures state == AfterClose(old(state), fd)
    {
      state := AfterClose(state, fd);
    }

    method OpenDevice(reply: Reply) returns (fd: int)
      modifies this
      ensures (state, fd) == AfterOpenDevice(old(state), reply)
    {
      var (k, n) := AfterOpenDevice(state, reply);
      state, fd := k, n;
    }

    /** The driver stores into the buffer it was given, if any, whether or not the call then succeeds. */
    method DoIoctl(fd: int, request: DriverRequest, buffer: ByteVector?, result: IoctlResult)
      modifies this, buffer
      ensures state == AfterIoctl(old(state), fd, request)
      ensures buffer != null ==> buffer.bytes == Overwritten(old(buffer.bytes), result.stored)
    {
      state := AfterIoctl(state, fd, request);
      if buffer != null {
        buffer.bytes := Overwritten(buffer.bytes, result.stored);
      }
    }
  }
}
