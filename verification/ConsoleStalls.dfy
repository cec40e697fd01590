/** What the loops hand to poll: bytes that can be delivered always have a polled descriptor. */
module ConsoleStalls {
  import opened Bytes
  import opened ConsoleFrames
  import opened ConsoleModel
  import opened ConsoleInvariants
  import opened ConsoleTheorems
  import opened ConsoleHost
  import opened ConsoleGuest
  import opened ConsolePasses

  // ----- The launcher -----

  lemma {:induction false} ChecksStop(h: Host, e: HostPass)
    requires h.end.Running? && AfterChecks(h, e).end.Running?
    ensures !HostTakes(AfterChecks(h, e)) && !HostLeaves(AfterChecks(h, e))
  {
    FramesStop(AfterWindow(h, e));
  }

  /** Reading the channel with room for a whole read. */
  predicate ReadsChannel(h: Host) {
    PollsChannel(h) && Room(h.rx) >= SB_CHUNK
  }

  /** The launcher holds, or can still receive, bytes for its streams. */
  predicate ForLauncher(h: Host, toHost: seq<byte>) {
    h.out != [] || h.err != [] || Peek(h.rx).Complete? || (h.connected && toHost != [])
  }

  /** In every run, when a pass reaches poll: a live launcher reads the channel with room for a
      whole read, or its blocked frame waits for a stream that is polled because its queue is not
      empty. So bytes for its streams always have a polled descriptor. */
  lemma {:induction false} HostNeverStalls(run: seq<World>, terminal: bool, i: nat, e: HostPass)
    requires IsRun(run, terminal) && i < |run| && run[i].host.end.Running?
    requires e.signal == 0 && |e.window| == WINSIZE && AfterChecks(run[i].host, e).end.Running?
    ensures var h := AfterChecks(run[i].host, e);
      && (match Peek(h.rx)
          case Incomplete => Room(h.rx) >= SB_CHUNK && (Live(h) ==> ReadsChannel(h))
          case Complete(f) => IsOutput(f) && (if f.kind == SB_OUTPUT then h.out else h.err) != []
          case Invalid => false)
      && (ForLauncher(h, run[i].toHost) ==> ReadsChannel(h) || h.out != [] || h.err != [])
  {
    InvAlways(run, terminal, i);
    var w := ChecksLift(run[i], e);
    LeadsKeepsInv(run[i], w);
    ChecksStop(run[i].host, e);
    HostWaits(w);
  }

  lemma {:induction false} HostWaits(w: World)
    requires Inv(w) && w.host.end.Running? && !HostTakes(w.host)
    ensures match Peek(w.host.rx)
            case Incomplete => Room(w.host.rx) >= SB_CHUNK && (Live(w.host) ==> ReadsChannel(w.host))
            case Complete(f) => IsOutput(f) && (if f.kind == SB_OUTPUT then w.host.out else w.host.err) != []
            case Invalid => false
    ensures w.host.receivedExit ==> w.toHost == []
  {
    StreamTakeBehind(w.sent, w.taken, w.host.rx, w.toHost, w.guest.tx);
    if w.host.receivedExit {
      assert w.sent[w.taken..] == [];
      assert |w.host.rx + w.toHost + w.guest.tx| == 0;
    }
  }

  // ----- Init -----

  lemma {:induction false} GuestChecksStop(g: Guest, e: GuestPass)
    requires g.end.Serving? && ThenChecks(g, e).end.Serving?
    ensures !GuestTakes(ThenChecks(g, e))
    ensures var g' := ThenChecks(g, e);
      && !(g'.sentExit && g'.tx == [])
      && (g'.exited && !g'.outputOpen && !g'.errorsOpen && !g'.sentExit ==> Room(g'.tx) < 12)
  {
    var framed := ThenFrames(ThenReap(g, e));
    GuestFramesStop(ThenReap(g, e));
    var closed := ThenClose(framed);
    assert closed == framed.(inputOpen := closed.inputOpen);
    assert framed.terminal ==> closed == framed;
    ExitIsLast(closed, e);
  }

  lemma {:induction false} ExitIsLast(g: Guest, e: GuestPass)
    requires g.end.Serving? && ThenLeave(ThenExit(g), e).end.Serving?
    ensures var g' := ThenLeave(ThenExit(g), e);
      && g' == g.(tx := g'.tx, sentExit := g'.sentExit)
      && !(g'.sentExit && g'.tx == [])
      && (g'.exited && !g'.outputOpen && !g'.errorsOpen && !g'.sentExit ==> Room(g'.tx) < 12)
  {
    if GuestCan(g, GSendExit) {
    } else {
    }
  }

  /** Input that can still reach the shell. */
  predicate ForShell(g: Guest, toGuest: seq<byte>) {
    g.inputOpen && (g.input != [] || Peek(g.rx).Complete? || toGuest != [])
  }

  /** Bytes that init has for the launcher or can read for it. */
  predicate FromShell(g: Guest) {
    g.tx != [] || g.outputOpen || g.errorsOpen || g.exited
  }

  /** In every run, when a pass reaches poll: init reads the channel with room for a whole read, or
      its blocked frame waits for queued input, which is polled if and only if the shell's input is
      still open. So input for the shell, the shell's output and its exit status always have a
      polled descriptor. */
  lemma {:induction false} GuestNeverStalls(run: seq<World>, terminal: bool, i: nat, e: GuestPass)
    requires IsRun(run, terminal) && i < |run| && run[i].guest.end.Serving?
    requires ThenChecks(run[i].guest, e).end.Serving?
    ensures var g := ThenChecks(run[i].guest, e);
      && (match Peek(g.rx)
          case Incomplete => Polled(g).channel && Room(g.rx) >= SB_CHUNK
          case Complete(_) => g.input != [] && (Polled(g).input <==> g.inputOpen)
          case Invalid => false)
      && (ForShell(g, run[i].toGuest) ==> Polled(g).input || (Polled(g).channel && Room(g.rx) >= SB_CHUNK))
      && (FromShell(g) ==> Polled(g).out || Polled(g).err || (Polled(g).channel && g.tx != []))
  {
    InvAlways(run, terminal, i);
    var w := GuestChecksLift(run[i], e);
    LeadsKeepsInv(run[i], w);
    GuestChecksStop(run[i].guest, e);
    GuestWaits(w);
  }

  lemma {:induction false} GuestWaits(w: World)
    requires Inv(w) && w.guest.end.Serving? && !GuestTakes(w.guest)
    ensures match Peek(w.guest.rx)
            case Incomplete => Polled(w.guest).channel && Room(w.guest.rx) >= SB_CHUNK
            case Complete(_) => w.guest.input != [] && (Polled(w.guest).input <==> w.guest.inputOpen)
            case Invalid => false
  {
    CutStreamTake(w.posted, w.fetched, w.guest.rx, w.toGuest, w.host.tx, Live(w.host));
  }

  // ----- The failing half of the condition occurs -----

  /** Init on a terminal, idle but for input that the shell has not read. */
  predicate Unread(w: World, n: nat) {
    && w.host == HOST_START && w.toGuest == []
    && w.guest == GuestStart(true).(input := w.guest.input) && |w.guest.input| == n
  }

  const CHUNK_PAYLOAD: nat := SB_CHUNK - 8

  lemma {:induction false} PeekWhole(f: Frame)
    requires Sendable(f)
    ensures Peek(Encode(f)) == Complete(f)
  {
    assert EncodeAll([f][1..]) == [];
    assert EncodeAll([f]) == Encode(f) + EncodeAll([f][1..]);
    PeekFindsFirstFrame([f], Encode(f), []);
  }

  /** One input frame crosses the channel. */
  lemma {:induction false} Cross(run: seq<World>, w: World, n: nat) returns (longer: seq<World>, w': World, f: Frame)
    requires Ends(run, w) && Unread(w, n)
    ensures Ends(longer, w') && longer[0] == run[0]
    ensures f.kind == SB_INPUT && |f.payload| == CHUNK_PAYLOAD && Peek(w'.guest.rx) == Complete(f)
    ensures w'.host == HOST_START && w'.toGuest == [] && w'.guest == w.guest.(rx := Encode(f))
  {
    f := Frame(SB_INPUT, Zeros(CHUNK_PAYLOAD));
    PeekWhole(f);
    longer, w' := Then(run, w, HostStep(HReadInput(f.payload)));
    assert w'.host == HOST_START.(tx := [] + Encode(f)) && [] + Encode(f) == Encode(f);
    longer, w' := Then(longer, w', HostStep(HFlush(SB_CHUNK)));
    assert Encode(f)[SB_CHUNK..] == [] && [] + Encode(f)[..SB_CHUNK] == Encode(f);
    assert w'.host == HOST_START && w'.toGuest == Encode(f);
    longer, w' := Then(longer, w', GuestStep(GReceive(Encode(f))));
    assert Encode(f)[SB_CHUNK..] == [] && [] + Encode(f) == Encode(f);
  }

  lemma {:induction false} Feed(run: seq<World>, w: World, n: nat) returns (longer: seq<World>, w': World)
    requires Ends(run, w) && Unread(w, n) && n + CHUNK_PAYLOAD <= SB_QUEUE
    ensures Ends(longer, w') && longer[0] == run[0] && Unread(w', n + CHUNK_PAYLOAD)
  {
    var f;
    longer, w', f := Cross(run, w, n);
    longer, w' := Then(longer, w', GuestStep(GTake));
    assert Encode(f)[8 + |f.payload|..] == [];
  }

  lemma {:induction false} Fill(k: nat) returns (run: seq<World>, w: World)
    requires k <= 16
    ensures Ends(run, w) && run[0].guest.terminal && Unread(w, k * CHUNK_PAYLOAD)
  {
    if k == 0 {
      w := WorldStart(true);
      run := [w];
    } else {
      run, w := Fill(k - 1);
      run, w := Feed(run, w, (k - 1) * CHUNK_PAYLOAD);
    }
  }

  /** A terminal hangs up while unread input fills the queue: the next input frame stays at the head
      of the receive queue and nothing that could make room for it is polled. */
  lemma {:induction false} HangUpHoldsInput(e: GuestPass) returns (run: seq<World>, w: World)
    requires !e.reaped && !e.pollFails
    ensures IsRun(run, true) && w == run[|run| - 1]
    ensures w.guest.end.Serving? && Peek(w.guest.rx).Complete? && !GuestTakes(w.guest)
    ensures ThenChecks(w.guest, e) == w.guest && !w.guest.inputOpen && !Polled(w.guest).input
  {
    var f;
    run, w := Fill(16);
    run, w, f := Cross(run, w, 16 * CHUNK_PAYLOAD);
    run, w := Then(run, w, GuestStep(GOutEof));
  }
}
