/** What the console protocol promises, over every run of the two loops. */
module ConsoleTheorems {
  import opened Bytes
  import opened ConsoleFrames
  import opened ConsoleModel
  import opened ConsoleInvariants

  // ----- Order, completeness, and exit only after all output -----

  lemma {:induction false} DeliveredIsPrefix(frames: seq<Frame>, taken: nat, kind: nat,
                                             read: seq<byte>, written: seq<byte>, queued: seq<byte>)
    requires Delivered(frames, taken, kind, read, written, queued)
    ensures written <= written + queued <= read
    ensures taken == |frames| ==> written + queued == read
  {
    assert frames == frames[..taken] + frames[taken..];
    PayloadsConcat(frames[..taken], frames[taken..], kind);
    assert taken == |frames| ==> frames[..taken] == frames;
  }

  /** At every moment the launcher has written a prefix of what the shell wrote, on each stream.
      When it leaves its loop with the shell's status, nothing is missing. */
  lemma {:induction false} OutputArrivesInOrder(run: seq<World>, terminal: bool, i: nat)
    requires IsRun(run, terminal) && i < |run|
    ensures run[i].hostOut <= run[i].shellOut
    ensures run[i].hostErr <= run[i].shellErr
    ensures run[i].host.end.Drained? ==>
              && run[i].hostOut == run[i].shellOut && run[i].hostErr == run[i].shellErr
              && run[i].guest.exited && !run[i].guest.outputOpen && !run[i].guest.errorsOpen
              && run[i].host.result == ExitCode(run[i].guest.status)
  {
    InvAlways(run, terminal, i);
    OutputPrefix(run[i]);
  }

  lemma {:induction false} OutputPrefix(w: World)
    requires Inv(w)
    ensures w.hostOut <= w.shellOut && w.hostErr <= w.shellErr
    ensures w.host.receivedExit ==> w.hostOut + w.host.out == w.shellOut && w.hostErr + w.host.err == w.shellErr
    ensures w.host.end.Drained? ==> w.hostOut == w.shellOut && w.hostErr == w.shellErr
  {
    DeliveredIsPrefix(w.sent, w.taken, SB_OUTPUT, w.shellOut, w.hostOut, w.host.out);
    DeliveredIsPrefix(w.sent, w.taken, SB_ERROR, w.shellErr, w.hostErr, w.host.err);
    assert w.hostOut + [] == w.hostOut && w.hostErr + [] == w.hostErr;
  }

  /** Neither loop ever takes the other's bytes for a protocol error. */
  lemma {:induction false} NoProtocolErrors(run: seq<World>, terminal: bool, i: nat)
    requires IsRun(run, terminal) && i < |run|
    ensures !run[i].host.end.ProtocolError?
    ensures !run[i].guest.end.Rejected?
  {
    InvAlways(run, terminal, i);
  }

  ghost predicate AllWritten(w: World) {
    w.hostOut == w.shellOut && w.hostErr == w.shellErr
  }

  /** Once the exit frame has arrived, a loop that is neither interrupted nor cut from its streams
      returns the shell's status. All output was written then if and only if the loop ended drained;
      otherwise poll failed, and bytes are always missing. */
  lemma {:induction false} StatusWithAllOutput(run: seq<World>, terminal: bool, i: nat)
    requires IsRun(run, terminal) && i < |run|
    requires run[i].host.receivedExit && !run[i].host.end.Running?
    requires !run[i].host.end.Interrupted? && !run[i].host.end.OutputFailed?
    ensures run[i].host.result == ExitCode(run[i].guest.status)
    ensures AllWritten(run[i]) <==> run[i].host.end.Drained?
    ensures !run[i].host.end.Drained? ==>
              && run[i].host.end.PollFailed?
              && |run[i].hostOut| + |run[i].hostErr| < |run[i].shellOut| + |run[i].shellErr|
  {
    InvAlways(run, terminal, i);
    var w := run[i];
    OutputPrefix(w);
    assert |w.hostOut + w.host.out| == |w.shellOut| && |w.hostErr + w.host.err| == |w.shellErr|;
  }

  /** A run under construction and its last world. */
  ghost predicate Ends(run: seq<World>, w: World) {
    run != [] && IsRun(run, run[0].guest.terminal) && w == run[|run| - 1]
  }

  lemma {:induction false} Then(run: seq<World>, w: World, step: Step) returns (longer: seq<World>, w': World)
    requires Ends(run, w) && Can(w, step)
    ensures Ends(longer, w') && w' == Do(w, step) && longer[0] == run[0]
  {
    w' := Do(w, step);
    assert Successor(w, w');
    longer := run + [w'];
    forall i | 0 <= i < |longer| - 1
      ensures Successor(longer[i], longer[i + 1])
    {
      assert i < |run| - 1 ==> Successor(run[i], run[i + 1]);
    }
  }

  lemma {:induction false} PrintOneByte() returns (run: seq<World>, w: World)
    ensures Ends(run, w) && w.host == HOST_START && w.toHost == [] && |w.guest.tx| == 17 && w.guest.end.Serving?
    ensures w.sent == [Frame(SB_READY, []), Frame(SB_OUTPUT, [65])] && w.taken == 0
    ensures !w.guest.sentExit && !w.guest.exited && w.guest.outputOpen && w.guest.errorsOpen
    ensures w.shellOut == [65] && w.hostOut == []
  {
    w := WorldStart(false);
    run := [w];
    run, w := Then(run, w, GuestStep(GReadOut([65])));
  }

  /** The shell prints one byte, closes its streams and exits with status 0. */
  lemma {:induction false} OneByteAndExit() returns (run: seq<World>, w: World)
    ensures Ends(run, w) && w.host == HOST_START && w.toHost == [] && |w.guest.tx| == 29 && w.guest.end.Serving?
    ensures w.sent == [Frame(SB_READY, []), Frame(SB_OUTPUT, [65]), ExitFrame(0)] && w.taken == 0
    ensures w.guest.sentExit && w.guest.status == 0 && w.shellOut == [65] && w.hostOut == []
  {
    run, w := PrintOneByte();
    var printed := w;
    run, w := Then(run, w, GuestStep(GOutEof));
    run, w := Then(run, w, GuestStep(GErrEof));
    run, w := Then(run, w, GuestStep(GReap(0)));
    assert w == printed.(guest := printed.guest.(outputOpen := false, errorsOpen := false, exited := true, status := 0,
                                                 inputOpen := w.guest.inputOpen));
    run, w := Then(run, w, GuestStep(GSendExit));
  }

  lemma {:induction false} Transfer(run: seq<World>, w: World) returns (longer: seq<World>, w': World)
    requires Ends(run, w) && w.host == HOST_START && w.toHost == [] && |w.guest.tx| == 29 && w.guest.end.Serving?
    ensures Ends(longer, w') && w'.toHost == [] && w'.guest.tx == []
    ensures w' == w.(host := HOST_START.(rx := w'.host.rx), guest := w.guest.(tx := w'.guest.tx), toHost := [])
  {
    longer, w' := Then(run, w, GuestStep(GFlush(29)));
    assert w'.toHost == w.guest.tx;
    longer, w' := Then(longer, w', HostStep(HReceive(w.guest.tx)));
  }

  lemma {:induction false} TakeNext(run: seq<World>, w: World) returns (longer: seq<World>, w': World)
    requires Ends(run, w) && w.host.end.Running? && w.toHost == [] && w.guest.tx == [] && w.taken < |w.sent|
    requires |w.host.out| + |w.sent[w.taken].payload| <= SB_QUEUE
             && |w.host.err| + |w.sent[w.taken].payload| <= SB_QUEUE
    ensures 8 + |w.sent[w.taken].payload| <= |w.host.rx|
    ensures Ends(longer, w') && w' == w.(host := HostAccept(w.host, w.sent[w.taken]), taken := w.taken + 1)
    ensures w'.host.end.Running?
  {
    InvAlways(run, run[0].guest.terminal, |run| - 1);
    StreamTakeBehind(w.sent, w.taken, w.host.rx, w.toHost, w.guest.tx);
    OutboundTake(w);
    longer, w' := Then(run, w, HostStep(HTake));
  }

  /** The second ending occurs: the byte is lost, yet the status is returned. */
  lemma {:induction false} PollFailureLosesOutput() returns (run: seq<World>, w: World)
    ensures Ends(run, w)
    ensures w.host.end.PollFailed? && w.host.receivedExit && w.host.result == 0 && w.shellOut == [65] && w.hostOut == []
  {
    run, w := OneByteAndExit();
    run, w := Transfer(run, w);
    run, w := TakeNext(run, w);
    run, w := TakeNext(run, w);
    ExitFrameRoundTrip(0);
    run, w := TakeNext(run, w);
    run, w := Then(run, w, HostStep(HPollFail));
  }

  // ----- Input -----

  lemma {:induction false} InputTextOfPipe(fs: seq<Frame>)
    ensures InputText(fs, false) == Payloads(fs, SB_INPUT)
    decreases |fs|
  {
    if fs != [] {
      var front := fs[..|fs| - 1];
      InputTextOfPipe(front);
      PayloadsAppend(front, fs[|fs| - 1], SB_INPUT);
      assert fs == front + [fs[|fs| - 1]];
    }
  }

  lemma {:induction false} PayloadsPrefix(fs: seq<Frame>, n: nat, kind: nat)
    requires n <= |fs|
    ensures Payloads(fs[..n], kind) <= Payloads(fs, kind)
  {
    PayloadsConcat(fs[..n], fs[n..], kind);
    assert fs == fs[..n] + fs[n..];
  }

  lemma {:induction false} WindowsCarryNoInput(fs: seq<Frame>)
    requires forall i :: 0 <= i < |fs| ==> fs[i].kind == SB_WINDOW
    ensures Payloads(fs, SB_INPUT) == []
  {
    if fs != [] { WindowsCarryNoInput(fs[1..]); }
  }

  lemma {:induction false} EofEndsInput(posted: seq<Frame>, fetched: nat)
    requires PostedShape(posted) && fetched <= |posted| && HasEof(posted[..fetched])
    ensures Payloads(posted[..fetched], SB_INPUT) == Payloads(posted, SB_INPUT)
    ensures HasEof(posted)
  {
    var i :| 0 <= i < fetched && posted[..fetched][i].kind == SB_EOF;
    assert posted[i].kind == SB_EOF;
    var rest := posted[fetched..];
    assert forall k :: 0 <= k < |rest| ==> rest[k] == posted[fetched + k] && rest[k].kind == SB_WINDOW;
    WindowsCarryNoInput(rest);
    PayloadsConcat(posted[..fetched], rest, SB_INPUT);
    assert posted == posted[..fetched] + rest;
  }

  /** On pipes the shell reads a prefix of what the launcher read, and init closes the shell's
      input for end of file only after it has delivered every byte. */
  lemma {:induction false} InputArrivesInOrder(run: seq<World>, i: nat)
    requires IsRun(run, false) && i < |run|
    ensures run[i].shellIn <= run[i].hostIn
    ensures GuestCan(run[i].guest, GCloseInput) ==> run[i].shellIn == run[i].hostIn && run[i].host.eof
  {
    InvAlways(run, false, i);
    TerminalNeverChanges(run, false, i);
    var w := run[i];
    InputDelivered(w.posted, w.fetched, w.hostIn, Live(w.host), w.host.eof, w.shellIn,
                   w.guest.input, w.guest.inputOpen);
  }

  lemma {:induction false} InputDelivered(posted: seq<Frame>, fetched: nat, read: seq<byte>, live: bool, eof: bool,
                                          written: seq<byte>, queued: seq<byte>, open: bool)
    requires PostedShape(posted) && fetched <= |posted|
    requires InputRead(posted, read, live, eof)
    requires InputWritten(InputText(posted[..fetched], false), written, queued, open)
    ensures written <= read
    ensures HasEof(posted[..fetched]) && open && queued == [] ==> written == read && eof
  {
    InputTextOfPipe(posted[..fetched]);
    PayloadsPrefix(posted, fetched, SB_INPUT);
    if HasEof(posted[..fetched]) && open && queued == [] {
      EofEndsInput(posted, fetched);
      assert written + [] == written;
    }
  }

  lemma {:induction false} TerminalNeverChanges(run: seq<World>, terminal: bool, i: nat)
    requires IsRun(run, terminal) && i < |run|
    ensures run[i].guest.terminal == terminal
  {
    if i > 0 {
      TerminalNeverChanges(run, terminal, i - 1);
      assert Successor(run[i - 1], run[i - 1 + 1]);
      var step :| Can(run[i - 1], step) && run[i] == Do(run[i - 1], step);
      StepKeepsTerminal(run[i - 1], step);
    }
  }

  lemma {:induction false} GuestKeepsTerminal(g: Guest, a: GuestAction)
    requires GuestCan(g, a)
    ensures GuestDo(g, a).terminal == g.terminal
  {
    if a.GTake? && Peek(g.rx).Complete? {
      assert GuestAccept(g, Peek(g.rx).frame).terminal == g.terminal;
    }
  }

  lemma {:induction false} StepKeepsTerminal(w: World, step: Step)
    requires Can(w, step)
    ensures Do(w, step).guest.terminal == w.guest.terminal
  {
    if step.GuestStep? {
      GuestKeepsTerminal(w.guest, step.guest);
    } else {
      assert HostRecord(w, step.host).guest == w.guest;
    }
  }

  // ----- After the shell exits, everything drains -----

  /** The shell is gone and its streams are at end of file; the launcher still listens. */
  predicate Draining(w: World) {
    && w.guest.exited && !w.guest.outputOpen && !w.guest.errorsOpen
    && (w.guest.end.Serving? || w.guest.end.Finished?)
    && w.host.end.Running? && (w.host.connected || w.host.receivedExit)
  }

  /** Work left: bytes weighted by how far they are from the launcher's streams, and the unsent exit frame. */
  function Backlog(w: World): nat {
    5 * |w.guest.tx| + 4 * |w.toHost| + 3 * |w.host.rx| + |w.host.out| + |w.host.err|
    + (if w.guest.sentExit then 0 else 61)
  }

  predicate Drains(step: Step) {
    match step
    case HostStep(a) => a.HTake? || a.HReceive? || a.HWriteOut? || a.HWriteErr?
    case GuestStep(a) => a.GFlush? || a.GSendExit?
  }

  lemma {:induction false} AcceptShrinks(h: Host, f: Frame)
    requires 8 + |f.payload| <= |h.rx|
    ensures var h' := HostAccept(h, f);
      h'.end.Running? && h.end.Running? ==>
        && 3 * |h'.rx| + |h'.out| + |h'.err| < 3 * |h.rx| + |h.out| + |h.err|
        && h'.connected == h.connected && (h.receivedExit ==> h'.receivedExit)
  {
    if IsOutput(f) && !h.receivedExit {
    } else if f.kind == SB_READY && |f.payload| == 0 && !h.ready && !h.receivedExit {
    } else {
    }
  }

  lemma {:induction false} DrainTakeShrinks(w: World)
    requires Inv(w) && Draining(w) && Can(w, HostStep(HTake))
    ensures Backlog(Do(w, HostStep(HTake))) < Backlog(w) && Draining(Do(w, HostStep(HTake)))
  {
    OutboundTake(w);
    StreamTakeBehind(w.sent, w.taken, w.host.rx, w.toHost, w.guest.tx);
    AcceptShrinks(w.host, w.sent[w.taken]);
    var w' := Do(w, HostStep(HTake));
    assert w' == w.(host := w'.host, taken := w.taken + 1) && w'.host == HostAccept(w.host, w.sent[w.taken]);
  }

  lemma {:induction false} DrainMoveShrinks(w: World, step: Step)
    requires Draining(w) && Can(w, step) && Drains(step) && step != HostStep(HTake)
    ensures Backlog(Do(w, step)) < Backlog(w) && Draining(Do(w, step))
  {
  }

  lemma {:induction false} DrainStepShrinks(w: World, step: Step)
    requires Inv(w) && Draining(w) && Can(w, step) && Drains(step)
    ensures Backlog(Do(w, step)) < Backlog(w) && Draining(Do(w, step))
  {
    if step == HostStep(HTake) { DrainTakeShrinks(w); } else { DrainMoveShrinks(w, step); }
  }

  /** No other step adds to the backlog, whatever the scheduler does. */
  lemma {:induction false} NoStepGrowsBacklog(w: World, step: Step)
    requires Inv(w) && Draining(w) && Can(w, step) && !Drains(step)
    ensures Backlog(Do(w, step)) == Backlog(w)
  {
    if step.HostStep? {
      HostOtherKeeps(w.host, step.host);
    } else if step.guest.GTake? {
      if Peek(w.guest.rx).Complete? { GuestAcceptKeeps(w.guest, Peek(w.guest.rx).frame); }
    } else {
      GuestOtherKeeps(w.guest, step.guest);
    }
  }

  /** While draining, some draining step is always enabled until the launcher can return. */
  lemma {:induction false} SomeDrainStepEnabled(w: World) returns (step: Step)
    requires Inv(w) && Draining(w) && !HostCan(w.host, HFinish)
    ensures Can(w, step) && Drains(step)
  {
    StreamTakeBehind(w.sent, w.taken, w.host.rx, w.toHost, w.guest.tx);
    if w.host.out != [] {
      step := HostStep(HWriteOut(1));
    } else if w.host.err != [] {
      step := HostStep(HWriteErr(1));
    } else if Peek(w.host.rx).Complete? {
      step := HostStep(HTake);
    } else if w.toHost != [] {
      step := HostStep(HReceive(w.toHost[..1]));
    } else if w.guest.tx != [] {
      step := GuestStep(GFlush(1));
    } else {
      step := GuestStep(GSendExit);
    }
  }

  function RunSteps(w: World, steps: seq<Step>): World
    requires Allowed(w, steps)
    decreases |steps|
  {
    if steps == [] then w else RunSteps(Do(w, steps[0]), steps[1..])
  }

  predicate Allowed(w: World, steps: seq<Step>)
    decreases |steps|
  {
    steps == [] || (Can(w, steps[0]) && Allowed(Do(w, steps[0]), steps[1..]))
  }

  function CountDrains(steps: seq<Step>): nat {
    if steps == [] then 0 else (if Drains(steps[0]) then 1 else 0) + CountDrains(steps[1..])
  }

  predicate DrainsThroughout(w: World, steps: seq<Step>)
    requires Allowed(w, steps)
    decreases |steps|
  {
    Draining(w) && (steps == [] || DrainsThroughout(Do(w, steps[0]), steps[1..]))
  }

  /** Every schedule: as long as nobody gives up, at most Backlog(w) draining steps can happen. */
  lemma {:induction false} DrainIsBounded(w: World, steps: seq<Step>)
    requires Inv(w) && Allowed(w, steps) && DrainsThroughout(w, steps)
    ensures CountDrains(steps) <= Backlog(w)
    decreases |steps|
  {
    if steps != [] {
      InvStep(w, steps[0]);
      if Drains(steps[0]) { DrainStepShrinks(w, steps[0]); } else { NoStepGrowsBacklog(w, steps[0]); }
      DrainIsBounded(Do(w, steps[0]), steps[1..]);
    }
  }

  /** From every reachable draining state the two loops can deliver everything and the launcher
      can return the shell's status with nothing missing. */
  lemma {:induction false} DrainCompletes(w: World) returns (steps: seq<Step>)
    requires Inv(w) && Draining(w)
    ensures Allowed(w, steps)
    ensures var end := RunSteps(w, steps);
      && end.host.end.Drained? && end.host.result == ExitCode(w.guest.status)
      && end.hostOut == w.shellOut && end.hostErr == w.shellErr
    decreases Backlog(w)
  {
    var step;
    if HostCan(w.host, HFinish) {
      step := HostStep(HFinish);
      InvStep(w, step);
      OutputPrefix(Do(w, step));
      steps := [step];
      assert steps[1..] == [];
      assert RunSteps(Do(w, step), []) == Do(w, step);
    } else {
      step := SomeDrainStepEnabled(w);
      DrainStepShrinks(w, step);
      InvStep(w, step);
      DrainKeepsHistory(w, step);
      var rest := DrainCompletes(Do(w, step));
      steps := [step] + rest;
      assert steps[1..] == rest;
    }
  }

  lemma {:induction false} DrainKeepsHistory(w: World, step: Step)
    requires Can(w, step) && Drains(step) && w.guest.exited
    ensures Do(w, step).shellOut == w.shellOut && Do(w, step).shellErr == w.shellErr
    ensures Do(w, step).guest.status == w.guest.status
  {
  }
}
