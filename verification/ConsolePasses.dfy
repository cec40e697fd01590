/** Whole passes of the two loops as stretches of a run of the system: whatever the system calls
    of a pass return, its effect is a sequence of enabled steps. */
module ConsolePasses {
  import opened Bytes
  import opened ConsoleFrames
  import opened ConsoleModel
  import opened ConsoleInvariants
  import opened ConsoleTheorems
  import opened ConsoleHost
  import opened ConsoleGuest

  // ----- Stretches of a run -----

  /** A stretch of a run from w to w'. */
  ghost predicate Stretch(path: seq<World>, w: World, w': World) {
    && path != [] && path[0] == w && path[|path| - 1] == w'
    && forall i {:trigger Successor(path[i - 1], path[i])} :: 0 < i < |path| ==> Successor(path[i - 1], path[i])
  }

  ghost predicate Leads(w: World, w': World) {
    w == w' || exists path :: Stretch(path, w, w')
  }

  lemma {:induction false} Once(w: World, step: Step) returns (w': World)
    requires Can(w, step)
    ensures Leads(w, w') && w' == Do(w, step)
  {
    w' := Do(w, step);
    assert Successor(w, w');
    assert Stretch([w, w'], w, w');
  }

  lemma {:induction false} StretchOn(a: seq<World>, b: seq<World>, w: World, mid: World, w': World)
    requires Stretch(a, w, mid) && Stretch(b, mid, w')
    ensures Stretch(a + b[1..], w, w')
  {
    var c := a + b[1..];
    forall i | 0 < i < |c|
      ensures Successor(c[i - 1], c[i])
    {
      if i < |a| {
        assert Successor(a[i - 1], a[i]);
      } else {
        var k := i - |a| + 1;
        assert Successor(b[k - 1], b[k]);
        assert c[i - 1] == b[k - 1];
      }
    }
  }

  lemma {:induction false} LeadsOn(w: World, mid: World, w': World)
    requires Leads(w, mid) && Leads(mid, w')
    ensures Leads(w, w')
  {
    if w != mid && mid != w' {
      var a :| Stretch(a, w, mid);
      var b :| Stretch(b, mid, w');
      StretchOn(a, b, w, mid, w');
    }
  }

  lemma {:induction false} StretchKeeps(path: seq<World>, w: World, w': World, keeps: World -> bool, i: nat)
    requires Stretch(path, w, w') && i < |path| && keeps(w)
    requires forall a, b {:trigger Successor(a, b)} :: keeps(a) && Successor(a, b) ==> keeps(b)
    ensures keeps(path[i])
  {
    if i > 0 {
      StretchKeeps(path, w, w', keeps, i - 1);
      assert Successor(path[i - 1], path[i]);
    }
  }

  lemma {:induction false} LeadsKeepsInv(w: World, w': World)
    requires Inv(w) && Leads(w, w')
    ensures Inv(w')
  {
    if w != w' {
      var path :| Stretch(path, w, w');
      forall a, b | Inv(a) && Successor(a, b)
        ensures Inv(b)
      {
        InvSuccessor(a, b);
      }
      StretchKeeps(path, w, w', v => Inv(v), |path| - 1);
    }
  }

  lemma {:induction false} RunIsStretch(run: seq<World>, terminal: bool)
    requires IsRun(run, terminal)
    ensures Stretch(run, run[0], run[|run| - 1])
  {
    forall i | 0 < i < |run|
      ensures Successor(run[i - 1], run[i])
    {
      assert Successor(run[i - 1], run[i - 1 + 1]);
    }
  }

  /** What leads on from the last world of a run extends the run. */
  lemma {:induction false} LeadsExtendsRun(run: seq<World>, terminal: bool, w': World) returns (longer: seq<World>)
    requires IsRun(run, terminal) && Leads(run[|run| - 1], w')
    ensures IsRun(longer, terminal) && run <= longer && w' == longer[|longer| - 1]
  {
    var w := run[|run| - 1];
    longer := run;
    if w != w' {
      var path :| Stretch(path, w, w');
      RunIsStretch(run, terminal);
      StretchOn(run, path, run[0], w, w');
      longer := run + path[1..];
      forall i | 0 <= i < |longer| - 1
        ensures Successor(longer[i], longer[i + 1])
      {
        var k := i + 1;
        assert Successor(longer[k - 1], longer[k]);
      }
    }
  }

  // ----- A pass of the launcher -----

  /** What a read of the channel adds to a receive queue. */
  function Taken(rx: seq<byte>, read: Incoming): seq<byte> {
    if Room(rx) > 0 && read.Data? then Clip(read.bytes, Least(Room(rx), SB_CHUNK)) else []
  }

  /** The bytes a pass takes from the channel. */
  function HostReads(h: Host, e: HostPass): seq<byte> {
    var checked := AfterChecks(h, e);
    if checked.end.Running? && !e.pollInterrupted && PollsChannel(checked) && e.channelReadable
    then Taken(checked.rx, e.channelRead) else []
  }

  /** The pass's system calls can happen here: what is read is what is next in flight. */
  predicate HostMeets(w: World, e: HostPass) {
    w.host.end.Running? && e.signal <= 64 && |e.window| == WINSIZE && HostReads(w.host, e) <= w.toHost
  }

  lemma {:induction false} WindowLifts(w: World, e: HostPass) returns (w': World)
    requires w.host.end.Running? && |e.window| == WINSIZE
    ensures Leads(w, w') && w' == w.(host := AfterWindow(w.host, e), posted := w'.posted)
  {
    if e.resized && Room(w.host.tx) >= 8 + WINSIZE {
      w' := Once(w, HostStep(HWindow(e.window)));
    } else {
      w' := w;
    }
  }

  lemma {:induction false} FramesLift(w: World) returns (w': World)
    requires w.host.end.Running?
    ensures Leads(w, w') && w' == w.(host := AfterFrames(w.host), taken := w'.taken)
    decreases |w.host.rx|
  {
    if HostTakes(w.host) {
      var next := Once(w, HostStep(HTake));
      assert next == w.(host := HostTaken(w.host), taken := next.taken);
      if next.host.end.Running? {
        w' := FramesLift(next);
        LeadsOn(w, next, w');
      } else {
        w' := next;
      }
    } else {
      w' := w;
    }
  }

  lemma {:induction false} FramesStop(h: Host)
    requires h.end.Running? && AfterFrames(h).end.Running?
    ensures !HostTakes(AfterFrames(h))
    decreases |h.rx|
  {
    if HostTakes(h) { FramesStop(HostTaken(h)); }
  }

  lemma {:induction false} LeaveLifts(w: World, e: HostPass) returns (w': World)
    ensures Leads(w, w') && w' == w.(host := AfterLeave(w.host, e))
  {
    if !w.host.end.Running? {
      w' := w;
    } else if HostDrained(w.host) {
      w' := Once(w, HostStep(HFinish));
    } else if HostCutOff(w.host) {
      w' := Once(w, HostStep(HNoticeDisconnect));
    } else if !w.host.ready && e.late {
      w' := Once(w, HostStep(HTimeOut));
    } else if e.pollFails {
      w' := Once(w, HostStep(HPollFail));
    } else {
      w' := w;
    }
  }

  lemma {:induction false} ArrivalsLift(w: World, e: HostPass) returns (w': World)
    requires w.host.end.Running? && |e.window| == WINSIZE
    ensures Leads(w, w')
    ensures w' == w.(host := AfterFrames(AfterWindow(w.host, e)), posted := w'.posted, taken := w'.taken)
  {
    var mid := WindowLifts(w, e);
    w' := FramesLift(mid);
    LeadsOn(w, mid, w');
  }

  lemma {:induction false} ChecksLift(w: World, e: HostPass) returns (w': World)
    requires w.host.end.Running? && e.signal <= 64 && |e.window| == WINSIZE
    ensures Leads(w, w') && w' == w.(host := AfterChecks(w.host, e), posted := w'.posted, taken := w'.taken)
  {
    if e.signal != 0 {
      w' := Once(w, HostStep(HInterrupt(e.signal)));
    } else {
      var mid := ArrivalsLift(w, e);
      w' := LeaveLifts(mid, e);
      LeadsOn(w, mid, w');
    }
  }

  lemma {:induction false} ReceiveLifts(w: World, read: Incoming) returns (w': World)
    requires w.host.end.Running? && Live(w.host) && Taken(w.host.rx, read) <= w.toHost
    ensures Leads(w, w')
    ensures w' == w.(host := AfterReceive(w.host, read), toHost := w.toHost[|Taken(w.host.rx, read)|..])
  {
    var bytes := Taken(w.host.rx, read);
    assert w.toHost[0..] == w.toHost;
    if Room(w.host.rx) <= 0 || read.NotYet? {
      w' := w;
    } else if read.Data? && read.bytes != [] {
      w' := Once(w, HostStep(HReceive(bytes)));
    } else {
      w' := Once(w, HostStep(HDisconnect));
    }
  }

  lemma {:induction false} FlushLifts(w: World, write: Outgoing) returns (w': World)
    requires w.host.end.Running? && Live(w.host)
    ensures Leads(w, w') && w' == w.(host := AfterFlush(w.host, write), toGuest := w'.toGuest)
  {
    if w.host.tx == [] || write.Busy? {
      w' := w;
    } else if write.Wrote? && write.count > 0 {
      w' := Once(w, HostStep(HFlush(Least(write.count, |w.host.tx|))));
    } else {
      w' := Once(w, HostStep(HChannelFail));
    }
  }

  lemma {:induction false} ChannelLifts(w: World, e: HostPass) returns (w': World)
    requires w.host.end.Running? && Live(w.host)
    requires e.channelReadable ==> Taken(w.host.rx, e.channelRead) <= w.toHost
    ensures Leads(w, w')
    ensures var n := if e.channelReadable then |Taken(w.host.rx, e.channelRead)| else 0;
      w' == w.(host := AfterChannel(w.host, e), toHost := w.toHost[n..], toGuest := w'.toGuest)
  {
    assert w.toHost[0..] == w.toHost;
    w' := w;
    if e.channelReadable {
      w' := ReceiveLifts(w, e.channelRead);
    }
    if w'.host.connected && e.channelWritable {
      var mid := w';
      w' := FlushLifts(mid, e.channelWrite);
      LeadsOn(w, mid, w');
    }
  }

  lemma {:induction false} InputLifts(w: World, read: Incoming) returns (w': World)
    requires w.host.end.Running? && PollsInput(w.host)
    ensures Leads(w, w') && w' == w.(host := AfterInput(w.host, read), posted := w'.posted, hostIn := w'.hostIn)
  {
    if read.NotYet? {
      w' := w;
    } else if read.Data? && read.bytes != [] {
      w' := Once(w, HostStep(HReadInput(Clip(read.bytes, SB_CHUNK))));
    } else {
      w' := Once(w, HostStep(HInputEof));
    }
  }

  lemma {:induction false} StreamLifts(w: World, toErr: bool, write: Outgoing) returns (w': World)
    requires w.host.end.Running?
    ensures Leads(w, w')
    ensures w' == w.(host := AfterStream(w.host, toErr, write), hostOut := w'.hostOut, hostErr := w'.hostErr)
  {
    var q := if toErr then w.host.err else w.host.out;
    if q == [] || write.Busy? {
      w' := w;
    } else if write.Wrote? && write.count > 0 {
      var n := Least(write.count, |q|);
      w' := Once(w, HostStep(if toErr then HWriteErr(n) else HWriteOut(n)));
    } else {
      w' := Once(w, HostStep(HOutputFail));
    }
  }

  lemma {:induction false} OutputsLift(w: World, e: HostPass, pollOut: bool, pollErr: bool)
    returns (w': World)
    requires w.host.end.Running?
    ensures Leads(w, w')
    ensures w' == w.(host := AfterOutputs(w.host, e, pollOut, pollErr), hostOut := w'.hostOut, hostErr := w'.hostErr)
  {
    w' := w;
    if pollOut && e.outReady {
      w' := StreamLifts(w, false, e.outWrite);
    }
    if w'.host.end.Running? && pollErr && e.errReady {
      var mid := w';
      w' := StreamLifts(mid, true, e.errWrite);
      LeadsOn(w, mid, w');
    }
  }

  lemma {:induction false} StreamsLift(w: World, e: HostPass, pollInput: bool) returns (w': World)
    requires w.host.end.Running? && (pollInput ==> PollsInput(w.host))
    ensures Leads(w, w')
    ensures w' == w.(host := AfterStreams(w.host, e, pollInput), posted := w'.posted, hostIn := w'.hostIn,
                     hostOut := w'.hostOut, hostErr := w'.hostErr)
  {
    w' := w;
    if pollInput && e.inputReady {
      w' := InputLifts(w, e.inputRead);
    }
    var mid := w';
    w' := OutputsLift(mid, e, w.host.out != [], w.host.err != []);
    LeadsOn(w, mid, w');
  }

  lemma {:induction false} ChannelKeepsInput(h: Host, e: HostPass)
    requires PollsInput(h) && Live(h)
    ensures PollsInput(AfterChannel(h, e))
  {
  }

  lemma {:induction false} ServingLifts(w: World, e: HostPass) returns (w': World)
    requires w.host.end.Running?
    requires PollsChannel(w.host) && e.channelReadable ==> Taken(w.host.rx, e.channelRead) <= w.toHost
    ensures Leads(w, w')
    ensures var n := if PollsChannel(w.host) && e.channelReadable then |Taken(w.host.rx, e.channelRead)| else 0;
      w' == w.(host := AfterServing(w.host, e), toHost := w.toHost[n..], toGuest := w'.toGuest, posted := w'.posted,
               hostIn := w'.hostIn, hostOut := w'.hostOut, hostErr := w'.hostErr)
  {
    assert w.toHost[0..] == w.toHost;
    w' := w;
    if PollsChannel(w.host) {
      w' := ChannelLifts(w, e);
      if PollsInput(w.host) { ChannelKeepsInput(w.host, e); }
    }
    if w'.host.end.Running? {
      var mid := w';
      w' := StreamsLift(mid, e, PollsInput(w.host));
      LeadsOn(w, mid, w');
    }
  }

  /** Whatever its system calls return, a pass of the launcher is a stretch of a run. */
  lemma {:induction false} HostPassLifts(w: World, e: HostPass) returns (w': World)
    requires HostMeets(w, e)
    ensures Leads(w, w')
    ensures w'.host == AfterPass(w.host, e) && w'.guest == w.guest
    ensures w'.toHost == w.toHost[|HostReads(w.host, e)|..]
    ensures w'.sent == w.sent && w'.shellOut == w.shellOut && w'.shellErr == w.shellErr
  {
    assert w.toHost[0..] == w.toHost;
    w' := ChecksLift(w, e);
    if w'.host.end.Running? && !e.pollInterrupted {
      var mid := w';
      w' := ServingLifts(mid, e);
      LeadsOn(w, mid, w');
    }
  }

  // ----- A pass of init -----

  function GuestReads(g: Guest, e: GuestPass): seq<byte> {
    var checked := ThenChecks(g, e);
    if checked.end.Serving? && !e.pollInterrupted && Polled(checked).channel && e.channelReadable
    then Taken(checked.rx, e.channelRead) else []
  }

  predicate GuestMeets(w: World, e: GuestPass) {
    w.guest.end.Serving? && GuestReads(w.guest, e) <= w.toGuest
  }

  lemma {:induction false} ReapLifts(w: World, e: GuestPass) returns (w': World)
    requires w.guest.end.Serving?
    ensures Leads(w, w') && w' == w.(guest := ThenReap(w.guest, e))
  {
    if !w.guest.exited && e.reaped {
      w' := Once(w, GuestStep(GReap(e.status)));
    } else {
      w' := w;
    }
  }

  lemma {:induction false} GuestFramesLift(w: World) returns (w': World)
    requires w.guest.end.Serving?
    ensures Leads(w, w') && w' == w.(guest := ThenFrames(w.guest), fetched := w'.fetched)
    decreases |w.guest.rx|
  {
    if GuestTakes(w.guest) {
      var next := Once(w, GuestStep(GTake));
      assert next == w.(guest := GuestTaken(w.guest), fetched := next.fetched);
      if next.guest.end.Serving? {
        w' := GuestFramesLift(next);
        LeadsOn(w, next, w');
      } else {
        w' := next;
      }
    } else {
      w' := w;
    }
  }

  lemma {:induction false} GuestFramesStop(g: Guest)
    requires g.end.Serving? && ThenFrames(g).end.Serving?
    ensures !GuestTakes(ThenFrames(g))
    decreases |g.rx|
  {
    if GuestTakes(g) { GuestFramesStop(GuestTaken(g)); }
  }

  lemma {:induction false} CloseLifts(w: World) returns (w': World)
    requires w.guest.end.Serving?
    ensures Leads(w, w') && w' == w.(guest := ThenClose(w.guest))
  {
    if GuestCan(w.guest, GCloseInput) {
      w' := Once(w, GuestStep(GCloseInput));
    } else {
      w' := w;
    }
  }

  lemma {:induction false} ExitLifts(w: World) returns (w': World)
    requires w.guest.end.Serving?
    ensures Leads(w, w') && w' == w.(guest := ThenExit(w.guest), sent := w'.sent)
  {
    if GuestCan(w.guest, GSendExit) {
      w' := Once(w, GuestStep(GSendExit));
    } else {
      w' := w;
    }
  }

  lemma {:induction false} GuestLeaveLifts(w: World, e: GuestPass) returns (w': World)
    requires w.guest.end.Serving?
    ensures Leads(w, w') && w' == w.(guest := ThenLeave(w.guest, e))
  {
    if w.guest.sentExit && |w.guest.tx| == 0 {
      w' := Once(w, GuestStep(GFinish));
    } else if e.pollFails {
      w' := Once(w, GuestStep(GPowerDown));
    } else {
      w' := w;
    }
  }

  lemma {:induction false} AfterFramesLift(w: World, e: GuestPass) returns (w': World)
    requires w.guest.end.Serving?
    ensures Leads(w, w')
    ensures w' == w.(guest := ThenLeave(ThenExit(ThenClose(w.guest)), e), sent := w'.sent)
  {
    var closed := CloseLifts(w);
    var exited := ExitLifts(closed);
    LeadsOn(w, closed, exited);
    w' := GuestLeaveLifts(exited, e);
    LeadsOn(w, exited, w');
  }

  lemma {:induction false} GuestChecksLift(w: World, e: GuestPass) returns (w': World)
    requires w.guest.end.Serving?
    ensures Leads(w, w')
    ensures w' == w.(guest := ThenChecks(w.guest, e), sent := w'.sent, fetched := w'.fetched)
  {
    var reaped := ReapLifts(w, e);
    w' := GuestFramesLift(reaped);
    LeadsOn(w, reaped, w');
    if w'.guest.end.Serving? {
      var mid := w';
      w' := AfterFramesLift(mid, e);
      LeadsOn(w, mid, w');
    }
  }

  lemma {:induction false} GuestReceiveLifts(w: World, read: Incoming) returns (w': World)
    requires w.guest.end.Serving? && Taken(w.guest.rx, read) <= w.toGuest
    ensures Leads(w, w') && w' == w.(guest := ThenReceive(w.guest, read), toGuest := w'.toGuest)
  {
    if Room(w.guest.rx) <= 0 || read.NotYet? {
      w' := w;
    } else if read.Data? && read.bytes != [] {
      w' := Once(w, GuestStep(GReceive(Taken(w.guest.rx, read))));
    } else {
      w' := Once(w, GuestStep(GPowerDown));
    }
  }

  /** Bytes on their way to the launcher before it reads them. */
  function Underway(w: World): nat {
    |w.guest.tx| + |w.toHost|
  }

  function Sends(tx: seq<byte>, write: Outgoing): nat {
    if write.Wrote? then Least(write.count, |tx|) else 0
  }

  lemma {:induction false} ReceiveKeepsStreams(g: Guest, read: Incoming)
    ensures var g' := ThenReceive(g, read);
      && g'.tx == g.tx
      && g'.inputOpen == g.inputOpen && g'.outputOpen == g.outputOpen && g'.errorsOpen == g.errorsOpen
  {
    if Room(g.rx) <= 0 || read.NotYet? {
    } else if read.Data? && read.bytes != [] {
    } else {
    }
  }

  lemma {:induction false} FlushKeepsStreams(g: Guest, write: Outgoing)
    ensures var g' := ThenFlush(g, write);
      && |g'.tx| + Sends(g.tx, write) == |g.tx|
      && g'.inputOpen == g.inputOpen && g'.outputOpen == g.outputOpen && g'.errorsOpen == g.errorsOpen
  {
    if |g.tx| == 0 || write.Busy? {
    } else if write.Wrote? && write.count > 0 {
    } else {
    }
  }

  lemma {:induction false} GuestFlushLifts(w: World, write: Outgoing) returns (w': World)
    requires w.guest.end.Serving?
    ensures Leads(w, w')
    ensures w' == w.(guest := ThenFlush(w.guest, write), toHost := w.toHost + w.guest.tx[..Sends(w.guest.tx, write)])
  {
    if |w.guest.tx| == 0 || write.Busy? {
      w' := w;
    } else if write.Wrote? && write.count > 0 {
      w' := Once(w, GuestStep(GFlush(Least(write.count, |w.guest.tx|))));
    } else {
      w' := Once(w, GuestStep(GPowerDown));
    }
  }

  lemma {:induction false} GuestChannelLifts(w: World, e: GuestPass) returns (w': World)
    requires w.guest.end.Serving?
    requires e.channelReadable ==> Taken(w.guest.rx, e.channelRead) <= w.toGuest
    ensures Leads(w, w')
    ensures w' == w.(guest := ThenChannel(w.guest, e), toGuest := w'.toGuest, toHost := w'.toHost)
    ensures Underway(w') == Underway(w)
    ensures w'.guest.inputOpen == w.guest.inputOpen
    ensures w'.guest.outputOpen == w.guest.outputOpen && w'.guest.errorsOpen == w.guest.errorsOpen
  {
    w' := w;
    if e.channelReadable {
      w' := GuestReceiveLifts(w, e.channelRead);
      ReceiveKeepsStreams(w.guest, e.channelRead);
    }
    if w'.guest.end.Serving? && e.channelWritable {
      var mid := w';
      w' := GuestFlushLifts(mid, e.channelWrite);
      FlushKeepsStreams(mid.guest, e.channelWrite);
      LeadsOn(w, mid, w');
    }
  }

  lemma {:induction false} GuestInputLifts(w: World, write: Outgoing) returns (w': World)
    requires w.guest.end.Serving? && w.guest.inputOpen
    ensures Leads(w, w') && w' == w.(guest := ThenInput(w.guest, write), shellIn := w'.shellIn)
  {
    if |w.guest.input| == 0 || write.Busy? {
      w' := w;
    } else if write.Wrote? && write.count > 0 {
      w' := Once(w, GuestStep(GWriteInput(Least(write.count, |w.guest.input|))));
    } else {
      w' := Once(w, GuestStep(GInputFail));
    }
  }

  lemma {:induction false} ShellLifts(w: World, errors: bool, read: Incoming) returns (w': World)
    requires w.guest.end.Serving? && (if errors then w.guest.errorsOpen else w.guest.outputOpen)
    ensures Leads(w, w')
    ensures w' == w.(guest := ThenShell(w.guest, errors, read), sent := w'.sent,
                     shellOut := w'.shellOut, shellErr := w'.shellErr)
  {
    if Room(w.guest.tx) < SB_CHUNK + 8 || read.NotYet? {
      w' := w;
    } else if read.Data? && read.bytes != [] {
      var bytes := Clip(read.bytes, SB_CHUNK);
      w' := Once(w, GuestStep(if errors then GReadErr(bytes) else GReadOut(bytes)));
    } else {
      w' := Once(w, GuestStep(if errors then GErrEof else GOutEof));
    }
  }

  lemma {:induction false} ShellsLift(w: World, e: GuestPass, polls: Polls) returns (w': World)
    requires w.guest.end.Serving? && (polls.out ==> w.guest.outputOpen) && (polls.err ==> w.guest.errorsOpen)
    ensures Leads(w, w')
    ensures w' == w.(guest := ThenShells(w.guest, e, polls), sent := w'.sent,
                     shellOut := w'.shellOut, shellErr := w'.shellErr)
    ensures !polls.out && !polls.err ==> w' == w
  {
    w' := w;
    if polls.out && e.outReady {
      w' := ShellLifts(w, false, e.outRead);
      assert w'.guest.errorsOpen == w.guest.errorsOpen && w'.guest.end.Serving?;
    }
    if polls.err && e.errReady {
      var mid := w';
      w' := ShellLifts(mid, true, e.errRead);
      LeadsOn(w, mid, w');
    }
  }

  lemma {:induction false} InputKeepsStreams(g: Guest, write: Outgoing)
    ensures ThenInput(g, write).outputOpen == g.outputOpen
    ensures ThenInput(g, write).errorsOpen == g.errorsOpen
    ensures ThenInput(g, write).end == g.end
    ensures ThenInput(g, write).tx == g.tx
  {
    if |g.input| == 0 || write.Busy? {
    } else if write.Wrote? && write.count > 0 {
    } else {
    }
  }

  lemma {:induction false} GuestStreamsLift(w: World, e: GuestPass, polls: Polls) returns (w': World)
    requires w.guest.end.Serving?
    requires (polls.input ==> w.guest.inputOpen) && (polls.out ==> w.guest.outputOpen)
             && (polls.err ==> w.guest.errorsOpen)
    ensures Leads(w, w')
    ensures w' == w.(guest := ThenStreams(w.guest, e, polls), sent := w'.sent,
                     shellIn := w'.shellIn, shellOut := w'.shellOut, shellErr := w'.shellErr)
    ensures !polls.out && !polls.err ==>
              w'.sent == w.sent && w'.shellOut == w.shellOut && w'.shellErr == w.shellErr && w'.guest.tx == w.guest.tx
  {
    w' := w;
    if polls.input && e.inputReady {
      w' := GuestInputLifts(w, e.inputWrite);
      InputKeepsStreams(w.guest, e.inputWrite);
    }
    var mid := w';
    w' := ShellsLift(mid, e, polls);
    LeadsOn(w, mid, w');
  }

  lemma {:induction false} GuestServingLifts(w: World, e: GuestPass) returns (w': World)
    requires w.guest.end.Serving?
    requires Polled(w.guest).channel && e.channelReadable ==> Taken(w.guest.rx, e.channelRead) <= w.toGuest
    ensures Leads(w, w')
    ensures w' == w.(guest := ThenServing(w.guest, e), toGuest := w'.toGuest, toHost := w'.toHost, sent := w'.sent,
                     shellIn := w'.shellIn, shellOut := w'.shellOut, shellErr := w'.shellErr)
    ensures !w.guest.outputOpen && !w.guest.errorsOpen ==>
              && Underway(w') == Underway(w)
              && w'.sent == w.sent && w'.shellOut == w.shellOut && w'.shellErr == w.shellErr
  {
    w' := w;
    if Polled(w.guest).channel {
      w' := GuestChannelLifts(w, e);
    }
    if w'.guest.end.Serving? {
      var mid := w';
      w' := GuestStreamsLift(mid, e, Polled(w.guest));
      LeadsOn(w, mid, w');
    }
  }

  /** Whatever its system calls return, a pass of init is a stretch of a run. */
  lemma {:induction false} GuestPassLifts(w: World, e: GuestPass) returns (w': World)
    requires GuestMeets(w, e)
    ensures Leads(w, w')
    ensures w'.guest == ThenPass(w.guest, e) && w'.host == w.host
  {
    w' := GuestChecksLift(w, e);
    if w'.guest.end.Serving? && !e.pollInterrupted {
      var mid := w';
      w' := GuestServingLifts(mid, e);
      LeadsOn(w, mid, w');
    }
  }
}
