/** The two console loops as action systems over the contents of their queues, and the pair of
    byte pipes that joins them. Every nondeterministic outcome of the surrounding system calls
    (how much a read or write moves, when a hang-up or error shows) is a choice of action. */
module ConsoleModel {
  import opened Bytes
  import opened ConsoleFrames

  function Room(queue: seq<byte>): int {
    SB_QUEUE - |queue|
  }

  /** The status that init reports for a wait status: exit code, or 128 plus the signal. */
  function ExitCode(status: nat): (code: nat)
    ensures code <= 255
  {
    if status % 128 == 0 then status / 256 % 256 else 128 + status % 128
  }

  // ----- The launcher's loop -----

  datatype HostEnd = Running | Drained | Interrupted | PollFailed | Disconnected | TimedOut
                   | ChannelFailed | OutputFailed | ProtocolError

  datatype Host = Host(rx: seq<byte>, tx: seq<byte>, out: seq<byte>, err: seq<byte>,
                       eof: bool, receivedExit: bool, ready: bool, connected: bool,
                       result: nat, end: HostEnd)

  const HOST_START := Host([], [], [], [], false, false, false, true, 125, Running)

  datatype HostAction =
    | HWindow(size: seq<byte>) | HTake | HFinish | HNoticeDisconnect | HTimeOut
    | HInterrupt(signal: nat) | HPollFail
    | HReceive(bytes: seq<byte>) | HDisconnect | HFlush(count: nat) | HChannelFail
    | HReadInput(bytes: seq<byte>) | HInputEof
    | HWriteOut(count: nat) | HWriteErr(count: nat) | HOutputFail

  predicate IsOutput(f: Frame) {
    f.kind == SB_OUTPUT || f.kind == SB_ERROR
  }

  /** A complete output frame waits for room in its stream's queue. */
  predicate HostBlocked(h: Host, f: Frame) {
    IsOutput(f) && !h.receivedExit && Room(if f.kind == SB_OUTPUT then h.out else h.err) < |f.payload|
  }

  function HostAccept(h: Host, f: Frame): Host
    requires 8 + |f.payload| <= |h.rx|
  {
    var rest := h.(rx := h.rx[8 + |f.payload|..]);
    if IsOutput(f) && !h.receivedExit then
      if f.kind == SB_OUTPUT then rest.(out := h.out + f.payload) else rest.(err := h.err + f.payload)
    else if f.kind == SB_READY && |f.payload| == 0 && !h.ready && !h.receivedExit then
      rest.(ready := true)
    else if f.kind == SB_EXIT && |f.payload| == 4 && !h.receivedExit && FromLe(f.payload) <= 255 then
      rest.(receivedExit := true, result := FromLe(f.payload), tx := [])
    else HostProtocolError(h)
  }

  /** There is a frame, or broken framing, to act on. */
  predicate HostTakes(h: Host) {
    match Peek(h.rx)
    case Invalid => true
    case Incomplete => false
    case Complete(f) => !HostBlocked(h, f)
  }

  function HostTaken(h: Host): (h': Host)
    requires HostTakes(h)
    ensures h'.end.ProtocolError? || |h'.rx| < |h.rx|
    ensures h'.end.ProtocolError? || h'.end == h.end
  {
    if Peek(h.rx).Invalid? then HostProtocolError(h) else HostAccept(h, Peek(h.rx).frame)
  }

  function HostProtocolError(h: Host): Host {
    h.(result := 125, receivedExit := false, end := ProtocolError)
  }

  /** Whether the launcher still reads and writes the channel. */
  predicate Live(h: Host) {
    h.connected && !h.receivedExit
  }

  predicate HostDrained(h: Host) {
    h.receivedExit && h.out == [] && h.err == []
  }

  predicate HostCutOff(h: Host) {
    !h.connected && Peek(h.rx).Incomplete? && !h.receivedExit
  }

  /** The loop leaves before it polls. */
  predicate HostLeaves(h: Host) {
    HostDrained(h) || HostCutOff(h)
  }

  predicate HostCan(h: Host, a: HostAction) {
    h.end.Running? &&
    match a
    case HWindow(size) => |size| == WINSIZE && Room(h.tx) >= 8 + WINSIZE
    case HTake => HostTakes(h)
    case HFinish => HostDrained(h)
    case HNoticeDisconnect => HostCutOff(h)
    case HTimeOut => !h.ready
    case HInterrupt(signal) => 1 <= signal <= 64
    case HPollFail => !HostLeaves(h)
    case HReceive(bytes) => Live(h) && 0 < |bytes| <= SB_CHUNK && |bytes| <= Room(h.rx)
    case HDisconnect => Live(h)
    case HFlush(count) => Live(h) && 0 < count <= |h.tx|
    case HChannelFail => Live(h) && h.tx != []
    case HReadInput(bytes) => !h.eof && !h.receivedExit && Room(h.tx) >= SB_CHUNK + 8 && 0 < |bytes| <= SB_CHUNK
    case HInputEof => !h.eof && !h.receivedExit && Room(h.tx) >= SB_CHUNK + 8
    case HWriteOut(count) => 0 < count <= |h.out|
    case HWriteErr(count) => 0 < count <= |h.err|
    case HOutputFail => h.out != [] || h.err != []
  }

  function HostDo(h: Host, a: HostAction): Host
    requires HostCan(h, a)
  {
    match a
    case HWindow(size) => h.(tx := h.tx + Encode(Frame(SB_WINDOW, size)))
    case HTake => HostTaken(h)
    case HFinish => h.(end := Drained)
    case HNoticeDisconnect => h.(end := Disconnected)
    case HTimeOut => h.(end := TimedOut)
    case HInterrupt(signal) => h.(result := 128 + signal, end := Interrupted)
    case HPollFail => h.(end := PollFailed)
    case HReceive(bytes) => h.(rx := h.rx + bytes)
    case HDisconnect => h.(connected := false, tx := [])
    case HFlush(count) => h.(tx := h.tx[count..])
    case HChannelFail => h.(end := ChannelFailed)
    case HReadInput(bytes) => h.(tx := h.tx + Encode(Frame(SB_INPUT, bytes)))
    case HInputEof => h.(tx := h.tx + Encode(Frame(SB_EOF, [])), eof := true)
    case HWriteOut(count) => h.(out := h.out[count..])
    case HWriteErr(count) => h.(err := h.err[count..])
    case HOutputFail => h.(result := 141, end := OutputFailed)
  }

  /** The actions are enabled one after another and lead from h to h'. */
  ghost predicate HostLeads(h: Host, actions: seq<HostAction>, h': Host)
    decreases |actions|
  {
    if actions == [] then h == h'
    else HostCan(h, actions[0]) && HostLeads(HostDo(h, actions[0]), actions[1..], h')
  }

  lemma {:induction false} HostLeadsOn(h: Host, a: seq<HostAction>, mid: Host, b: seq<HostAction>, h': Host)
    requires HostLeads(h, a, mid) && HostLeads(mid, b, h')
    ensures HostLeads(h, a + b, h')
    decreases |a|
  {
    if a == [] {
      assert a + b == b;
    } else {
      HostLeadsOn(HostDo(h, a[0]), a[1..], mid, b, h');
      assert (a + b)[1..] == a[1..] + b;
    }
  }

  lemma {:induction false} HostLeadsOnce(h: Host, a: HostAction)
    requires HostCan(h, a)
    ensures HostLeads(h, [a], HostDo(h, a))
  {
  }

  // ----- The loop in the VM's init -----

  datatype GuestEnd = Serving | Finished | PoweredDown | Rejected

  datatype Guest = Guest(rx: seq<byte>, tx: seq<byte>, input: seq<byte>,
                         eof: bool, exited: bool, sentExit: bool, status: nat,
                         inputOpen: bool, outputOpen: bool, errorsOpen: bool,
                         terminal: bool, end: GuestEnd)

  /** With a terminal one descriptor serves as input and output and there is no error stream. */
  function GuestStart(terminal: bool): Guest {
    Guest([], Encode(Frame(SB_READY, [])), [], false, false, false, 32000, true, true, !terminal, terminal, Serving)
  }

  datatype GuestAction =
    | GReap(status: nat) | GTake | GCloseInput | GSendExit | GFinish
    | GReceive(bytes: seq<byte>) | GFlush(count: nat) | GPowerDown
    | GWriteInput(count: nat) | GInputFail
    | GReadOut(bytes: seq<byte>) | GOutEof | GReadErr(bytes: seq<byte>) | GErrEof

  predicate GuestBlocked(g: Guest, f: Frame) {
    || (f.kind == SB_INPUT && !g.eof && Room(g.input) < |f.payload|)
    || (f.kind == SB_EOF && |f.payload| == 0 && !g.eof && g.terminal && g.inputOpen && Room(g.input) == 0)
  }

  function GuestAccept(g: Guest, f: Frame): Guest
    requires 8 + |f.payload| <= |g.rx|
  {
    var rest := g.(rx := g.rx[8 + |f.payload|..]);
    if f.kind == SB_INPUT && !g.eof then
      rest.(input := if g.inputOpen then g.input + f.payload else g.input)
    else if f.kind == SB_EOF && |f.payload| == 0 && !g.eof then
      rest.(eof := true, input := if g.terminal && g.inputOpen then g.input + [4] else g.input)
    else if f.kind == SB_WINDOW && |f.payload| == WINSIZE then rest
    else g.(end := Rejected)
  }

  predicate GuestTakes(g: Guest) {
    match Peek(g.rx)
    case Invalid => true
    case Incomplete => false
    case Complete(f) => !GuestBlocked(g, f)
  }

  function GuestTaken(g: Guest): (g': Guest)
    requires GuestTakes(g)
    ensures g'.end.Rejected? || |g'.rx| < |g.rx|
    ensures g'.end.Rejected? || g'.end == g.end
  {
    if Peek(g.rx).Invalid? then g.(end := Rejected) else GuestAccept(g, Peek(g.rx).frame)
  }

  predicate GuestCan(g: Guest, a: GuestAction) {
    g.end.Serving? &&
    match a
    case GReap(status) => !g.exited
    case GTake => GuestTakes(g)
    case GCloseInput => g.eof && !g.terminal && g.inputOpen && g.input == []
    case GSendExit => g.exited && !g.outputOpen && !g.errorsOpen && !g.sentExit && Room(g.tx) >= 12
    case GFinish => g.sentExit && g.tx == []
    case GReceive(bytes) => 0 < |bytes| <= SB_CHUNK && |bytes| <= Room(g.rx)
    case GFlush(count) => 0 < count <= |g.tx|
    case GPowerDown => true
    case GWriteInput(count) => g.inputOpen && 0 < count <= |g.input|
    case GInputFail => g.inputOpen && g.input != []
    case GReadOut(bytes) => g.outputOpen && 0 < |bytes| <= SB_CHUNK && Room(g.tx) >= SB_CHUNK + 8
    case GOutEof => g.outputOpen && Room(g.tx) >= SB_CHUNK + 8
    case GReadErr(bytes) => g.errorsOpen && 0 < |bytes| <= SB_CHUNK && Room(g.tx) >= SB_CHUNK + 8
    case GErrEof => g.errorsOpen && Room(g.tx) >= SB_CHUNK + 8
  }

  function ExitFrame(status: nat): Frame {
    Frame(SB_EXIT, Le(ExitCode(status), 4))
  }

  function GuestDo(g: Guest, a: GuestAction): Guest
    requires GuestCan(g, a)
  {
    match a
    case GReap(status) => g.(exited := true, status := status)
    case GTake => GuestTaken(g)
    case GCloseInput => g.(inputOpen := false)
    case GSendExit => g.(tx := g.tx + Encode(ExitFrame(g.status)), sentExit := true)
    case GFinish => g.(end := Finished)
    case GReceive(bytes) => g.(rx := g.rx + bytes)
    case GFlush(count) => g.(tx := g.tx[count..])
    case GPowerDown => g.(end := PoweredDown)
    case GWriteInput(count) => g.(input := g.input[count..])
    case GInputFail => g.(inputOpen := false, input := [])
    case GReadOut(bytes) => g.(tx := g.tx + Encode(Frame(SB_OUTPUT, bytes)))
    case GOutEof => g.(outputOpen := false, inputOpen := g.inputOpen && !g.terminal)
    case GReadErr(bytes) => g.(tx := g.tx + Encode(Frame(SB_ERROR, bytes)))
    case GErrEof => g.(errorsOpen := false)
  }

  ghost predicate GuestLeads(g: Guest, actions: seq<GuestAction>, g': Guest)
    decreases |actions|
  {
    if actions == [] then g == g'
    else GuestCan(g, actions[0]) && GuestLeads(GuestDo(g, actions[0]), actions[1..], g')
  }

  lemma {:induction false} GuestLeadsOn(g: Guest, a: seq<GuestAction>, mid: Guest, b: seq<GuestAction>, g': Guest)
    requires GuestLeads(g, a, mid) && GuestLeads(mid, b, g')
    ensures GuestLeads(g, a + b, g')
    decreases |a|
  {
    if a == [] {
      assert a + b == b;
    } else {
      GuestLeadsOn(GuestDo(g, a[0]), a[1..], mid, b, g');
      assert (a + b)[1..] == a[1..] + b;
    }
  }

  lemma {:induction false} GuestLeadsOnce(g: Guest, a: GuestAction)
    requires GuestCan(g, a)
    ensures GuestLeads(g, [a], GuestDo(g, a))
  {
  }

  // ----- Both loops and the channel between them -----

  /** toHost and toGuest are bytes in flight. The other fields record history: the frames each
      side has queued while its channel was live, how many the other side has taken, and every
      byte that crossed the outer descriptors. */
  datatype World = World(host: Host, guest: Guest, toHost: seq<byte>, toGuest: seq<byte>,
                         sent: seq<Frame>, taken: nat, posted: seq<Frame>, fetched: nat,
                         shellOut: seq<byte>, shellErr: seq<byte>, shellIn: seq<byte>,
                         hostOut: seq<byte>, hostErr: seq<byte>, hostIn: seq<byte>)

  function WorldStart(terminal: bool): World {
    World(HOST_START, GuestStart(terminal), [], [], [Frame(SB_READY, [])], 0, [], 0, [], [], [], [], [], [])
  }

  datatype Step = HostStep(host: HostAction) | GuestStep(guest: GuestAction)

  predicate Can(w: World, step: Step) {
    match step
    case HostStep(a) => HostCan(w.host, a) && (a.HReceive? ==> a.bytes <= w.toHost)
    case GuestStep(a) => GuestCan(w.guest, a) && (a.GReceive? ==> a.bytes <= w.toGuest)
  }

  function Do(w: World, step: Step): World
    requires Can(w, step)
  {
    match step
    case HostStep(a) => HostRecord(w, a).(host := HostDo(w.host, a))
    case GuestStep(a) => GuestRecord(w, a).(guest := GuestDo(w.guest, a))
  }

  function HostRecord(w: World, a: HostAction): World
    requires HostCan(w.host, a) && (a.HReceive? ==> a.bytes <= w.toHost)
  {
    var live := Live(w.host);
    match a
    case HWindow(size) => if live then w.(posted := w.posted + [Frame(SB_WINDOW, size)]) else w
    case HTake => if HostDo(w.host, a).end.Running? then w.(taken := w.taken + 1) else w
    case HReceive(bytes) => w.(toHost := w.toHost[|bytes|..])
    case HFlush(count) => w.(toGuest := w.toGuest + w.host.tx[..count])
    case HReadInput(bytes) =>
      var read := w.(hostIn := w.hostIn + bytes);
      if live then read.(posted := w.posted + [Frame(SB_INPUT, bytes)]) else read
    case HInputEof => if live then w.(posted := w.posted + [Frame(SB_EOF, [])]) else w
    case HWriteOut(count) => w.(hostOut := w.hostOut + w.host.out[..count])
    case HWriteErr(count) => w.(hostErr := w.hostErr + w.host.err[..count])
    case _ => w
  }

  function GuestRecord(w: World, a: GuestAction): World
    requires GuestCan(w.guest, a) && (a.GReceive? ==> a.bytes <= w.toGuest)
  {
    match a
    case GTake => if GuestDo(w.guest, a).end.Serving? then w.(fetched := w.fetched + 1) else w
    case GSendExit => w.(sent := w.sent + [ExitFrame(w.guest.status)])
    case GReceive(bytes) => w.(toGuest := w.toGuest[|bytes|..])
    case GFlush(count) => w.(toHost := w.toHost + w.guest.tx[..count])
    case GWriteInput(count) => w.(shellIn := w.shellIn + w.guest.input[..count])
    case GReadOut(bytes) => w.(sent := w.sent + [Frame(SB_OUTPUT, bytes)], shellOut := w.shellOut + bytes)
    case GReadErr(bytes) => w.(sent := w.sent + [Frame(SB_ERROR, bytes)], shellErr := w.shellErr + bytes)
    case _ => w
  }

  /** A run: every world but the first is the result of an enabled step in the one before it. */
  ghost predicate IsRun(run: seq<World>, terminal: bool) {
    && run != []
    && run[0] == WorldStart(terminal)
    && forall i :: 0 <= i < |run| - 1 ==> Successor(run[i], run[i + 1])
  }

  ghost predicate Successor(w: World, w': World) {
    exists step :: Can(w, step) && w' == Do(w, step)
  }
}
