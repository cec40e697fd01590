/** After the shell has exited, the two loops themselves deliver everything: with descriptors that
    are ready when there is work, alternating passes return the shell's status. */
module ConsoleDrain {
  import opened Bytes
  import opened ConsoleFrames
  import opened ConsoleModel
  import opened ConsoleInvariants
  import opened ConsoleTheorems
  import opened ConsoleHost
  import opened ConsoleGuest
  import opened ConsolePasses

  /** The launcher's share of the backlog. */
  function Held(h: Host): nat {
    3 * |h.rx| + |h.out| + |h.err|
  }

  lemma {:induction false} BacklogShares(w: World)
    ensures Backlog(w) == 4 * Underway(w) + |w.guest.tx| + Held(w.host) + (if w.guest.sentExit then 0 else 61)
  {
  }

  // ----- What a pass's system calls may return -----

  predicate Reads(read: Incoming) {
    read.NotYet? || (read.Data? && read.bytes != [])
  }

  predicate Writes(write: Outgoing) {
    write.Busy? || (write.Wrote? && write.count > 0)
  }

  /** Nothing fails in the launcher's pass, and if there is anything to move then something is ready. */
  predicate HostReady(w: World, e: HostPass) {
    var h := AfterChecks(w.host, e);
    && e.signal == 0 && |e.window| == WINSIZE && !e.late && !e.pollFails && !e.pollInterrupted
    && Reads(e.channelRead) && HostReads(w.host, e) <= w.toHost
    && Writes(e.channelWrite) && Writes(e.outWrite) && Writes(e.errWrite)
    && (h.end.Running? && (h.out != [] || h.err != [] || w.toHost != []) ==>
          || (h.out != [] && e.outReady && e.outWrite.Wrote?)
          || (h.err != [] && e.errReady && e.errWrite.Wrote?)
          || HostReads(w.host, e) != [])
  }

  /** Nothing fails in init's pass, and the channel takes something when there is something to send. */
  predicate GuestReady(w: World, e: GuestPass) {
    && !e.pollFails && !e.pollInterrupted
    && Reads(e.channelRead) && GuestReads(w.guest, e) <= w.toGuest
    && Writes(e.channelWrite)
    && (ThenChecks(w.guest, e).tx != [] ==> e.channelWritable && e.channelWrite.Wrote?)
  }

  // ----- Init's pass -----

  /** What the drain needs to know of init. */
  function Fate(g: Guest): (bool, bool, nat, bool, bool) {
    (g.exited, g.sentExit, g.status, g.outputOpen, g.errorsOpen)
  }

  lemma {:induction false} TakenKeepsFate(g: Guest)
    requires g.end.Serving? && GuestTakes(g)
    ensures Fate(GuestTaken(g)) == Fate(g) && GuestTaken(g).tx == g.tx
    ensures GuestTaken(g).end.Serving? || GuestTaken(g).end.Rejected?
  {
    if Peek(g.rx).Complete? {
      var f := Peek(g.rx).frame;
      if f.kind == SB_INPUT && !g.eof {
      } else if f.kind == SB_EOF && |f.payload| == 0 && !g.eof {
      } else if f.kind == SB_WINDOW && |f.payload| == WINSIZE {
      } else {
      }
    }
  }

  lemma {:induction false} FramesKeepFate(g: Guest)
    requires g.end.Serving?
    ensures Fate(ThenFrames(g)) == Fate(g) && ThenFrames(g).tx == g.tx
    ensures ThenFrames(g).end.Serving? || ThenFrames(g).end.Rejected?
    decreases |g.rx|
  {
    if GuestTakes(g) {
      TakenKeepsFate(g);
      if GuestTaken(g).end.Serving? { FramesKeepFate(GuestTaken(g)); }
    }
  }

  lemma {:induction false} GuestChecksDrain(w: World, e: GuestPass) returns (w': World)
    requires Inv(w) && Draining(w) && w.guest.end.Serving? && !e.pollFails
    ensures Leads(w, w') && w'.guest == ThenChecks(w.guest, e)
    ensures w' == w.(guest := w'.guest, sent := w'.sent, fetched := w'.fetched)
    ensures Inv(w') && Draining(w') && w'.guest.status == w.guest.status
    ensures w'.guest.end.Serving? ==> w'.guest.tx != []
    ensures if w.guest.sentExit || Room(w.guest.tx) < 12 then Backlog(w') == Backlog(w) && w'.guest.tx == w.guest.tx
            else Backlog(w') < Backlog(w)
  {
    var mid := GuestFramesLift(w);
    FramesKeepFate(w.guest);
    LeadsKeepsInv(w, mid);
    assert ThenReap(w.guest, e) == w.guest;
    w' := AfterFramesLift(mid, e);
    LeadsOn(w, mid, w');
    LeadsKeepsInv(w, w');
    ExitShrinks(mid.guest, e);
    BacklogShares(w);
    BacklogShares(w');
  }

  lemma {:induction false} ExitShrinks(g: Guest, e: GuestPass)
    requires g.end.Serving? && g.exited && !g.outputOpen && !g.errorsOpen && !e.pollFails
    ensures var g' := ThenLeave(ThenExit(ThenClose(g)), e);
      && (g'.end.Serving? || g'.end.Finished?) && (g'.end.Serving? ==> g'.tx != [])
      && g'.exited && g'.status == g.status && !g'.outputOpen && !g'.errorsOpen
      && (if g.sentExit || Room(g.tx) < 12 then g'.tx == g.tx && g'.sentExit == g.sentExit
          else |g'.tx| == |g.tx| + 12 && g'.sentExit)
  {
    ExitFrameRoundTrip(g.status);
    var closed := ThenClose(g);
    assert closed == g.(inputOpen := closed.inputOpen);
    if g.sentExit || Room(g.tx) < 12 {
      assert ThenExit(closed) == closed;
    } else {
      assert ThenExit(closed) == closed.(tx := g.tx + Encode(ExitFrame(g.status)), sentExit := true);
    }
  }

  lemma {:induction false} ReceiveServes(g: Guest, read: Incoming)
    requires g.end.Serving? && Reads(read)
    ensures var g' := ThenReceive(g, read);
      g'.end.Serving? && Fate(g') == Fate(g) && g'.tx == g.tx
  {
    if Room(g.rx) <= 0 || read.NotYet? {
    } else {
    }
  }

  lemma {:induction false} FlushServes(g: Guest, write: Outgoing)
    requires g.end.Serving? && Writes(write)
    ensures var g' := ThenFlush(g, write);
      && g'.end.Serving? && Fate(g') == Fate(g) && |g'.tx| <= |g.tx|
      && (g.tx != [] && write.Wrote? ==> |g'.tx| < |g.tx|)
  {
    if |g.tx| == 0 || write.Busy? {
    } else {
    }
  }

  lemma {:induction false} InputServes(g: Guest, e: GuestPass, polls: Polls)
    requires !polls.out && !polls.err
    ensures var g' := ThenStreams(g, e, polls);
      g'.end == g.end && Fate(g') == Fate(g) && g'.tx == g.tx
  {
    if polls.input && e.inputReady {
      if |g.input| == 0 || e.inputWrite.Busy? {
      } else if e.inputWrite.Wrote? && e.inputWrite.count > 0 {
      } else {
      }
    }
  }

  lemma {:induction false} ServingSends(g: Guest, e: GuestPass)
    requires g.end.Serving? && !g.outputOpen && !g.errorsOpen && g.tx != []
    requires Reads(e.channelRead) && Writes(e.channelWrite) && e.channelWritable && e.channelWrite.Wrote?
    ensures var g' := ThenServing(g, e);
      g'.end.Serving? && Fate(g') == Fate(g) && |g'.tx| < |g.tx|
  {
    if e.channelReadable { ReceiveServes(g, e.channelRead); }
    var received := if e.channelReadable then ThenReceive(g, e.channelRead) else g;
    FlushServes(received, e.channelWrite);
    InputServes(ThenFlush(received, e.channelWrite), e, Polled(g));
  }

  ghost predicate GuestMoves(w: World, e: GuestPass, w': World) {
    if w.guest.end.Serving?
    then w'.host == w.host && w'.guest == ThenPass(w.guest, e) && Leads(w, w')
    else w' == w
  }

  /** Init's pass shrinks the backlog unless init has sent everything. */
  lemma {:induction false} GuestPassDrains(w: World, e: GuestPass) returns (w': World)
    requires Inv(w) && Draining(w) && GuestReady(w, e)
    ensures GuestMoves(w, e, w')
    ensures Inv(w') && Draining(w') && w'.guest.status == w.guest.status
    ensures w'.shellOut == w.shellOut && w'.shellErr == w.shellErr
    ensures Backlog(w') <= Backlog(w)
    ensures Backlog(w') < Backlog(w) || (w'.guest.tx == [] && w'.guest.sentExit)
  {
    if !w.guest.end.Serving? {
      return w;
    }
    w' := GuestChecksDrain(w, e);
    assert w'.guest.tx == [] ==> w'.guest.end.Finished? || w'.guest.sentExit;
    if w'.guest.end.Serving? {
      var mid := w';
      w' := GuestServingLifts(mid, e);
      LeadsOn(w, mid, w');
      LeadsKeepsInv(w, w');
      ServingSends(mid.guest, e);
      BacklogShares(mid);
      BacklogShares(w');
    }
    assert Leads(w, w');
  }

  // ----- The launcher's pass -----

  lemma {:induction false} FramesShrink(h: Host)
    requires h.end.Running?
    ensures var h' := AfterFrames(h);
      h'.end.Running? ==>
        && Held(h') <= Held(h)
        && h'.connected == h.connected && (h.receivedExit ==> h'.receivedExit)
    ensures AfterFrames(h).end.Running? || AfterFrames(h).end.ProtocolError?
    decreases |h.rx|
  {
    if HostTakes(h) {
      var next := HostTaken(h);
      if next.end.Running? {
        AcceptShrinks(h, Peek(h.rx).frame);
        FramesShrink(next);
      }
    }
  }

  lemma {:induction false} ChecksShrink(h: Host, e: HostPass)
    requires h.end.Running? && (h.connected || h.receivedExit) && e.signal == 0 && !e.late && !e.pollFails
    requires AfterFrames(AfterWindow(h, e)).end.Running?
    ensures var h' := AfterChecks(h, e);
      && Held(h') <= Held(h)
      && (h'.end.Drained? || (&& h'.end.Running? && !HostTakes(h') && !HostDrained(h')
                              && (h'.connected || h'.receivedExit)))
  {
    var posted := AfterWindow(h, e);
    assert posted == h.(tx := posted.tx);
    FramesShrink(posted);
    FramesStop(posted);
  }

  /** Up to poll: the launcher returns, or it has found what it can do and lost nothing. */
  lemma {:induction false} HostChecksDrain(w: World, e: HostPass) returns (w': World)
    requires Inv(w) && Draining(w) && e.signal == 0 && |e.window| == WINSIZE && !e.late && !e.pollFails
    ensures Leads(w, w') && w'.host == AfterChecks(w.host, e)
    ensures w' == w.(host := w'.host, posted := w'.posted, taken := w'.taken)
    ensures Inv(w') && Backlog(w') <= Backlog(w)
    ensures w'.host.end.Drained? || (Draining(w') && !HostTakes(w'.host) && !HostDrained(w'.host))
  {
    var mid := ArrivalsLift(w, e);
    LeadsKeepsInv(w, mid);
    FramesShrink(AfterWindow(w.host, e));
    ChecksShrink(w.host, e);
    w' := ChecksLift(w, e);
    LeadsKeepsInv(w, w');
    BacklogShares(w);
    BacklogShares(w');
  }

  lemma {:induction false} HostReceives(h: Host, read: Incoming)
    requires h.end.Running? && Reads(read)
    ensures AfterReceive(h, read) == h.(rx := h.rx + Taken(h.rx, read))
  {
    assert h.rx + [] == h.rx;
  }

  lemma {:induction false} HostFlushes(h: Host, write: Outgoing)
    requires Writes(write)
    ensures AfterFlush(h, write) == h.(tx := AfterFlush(h, write).tx)
  {
  }

  lemma {:induction false} ChannelServes(h: Host, e: HostPass)
    requires h.end.Running? && Reads(e.channelRead) && Writes(e.channelWrite)
    ensures var h' := AfterChannel(h, e);
      h' == h.(rx := h.rx + (if e.channelReadable then Taken(h.rx, e.channelRead) else []), tx := h'.tx)
  {
    assert h.rx + [] == h.rx;
    if e.channelReadable { HostReceives(h, e.channelRead); }
    var received := if e.channelReadable then AfterReceive(h, e.channelRead) else h;
    HostFlushes(received, e.channelWrite);
  }

  lemma {:induction false} StreamServes(h: Host, toErr: bool, write: Outgoing)
    requires Writes(write)
    ensures var h' := AfterStream(h, toErr, write);
      && h' == (if toErr then h.(err := h'.err) else h.(out := h'.out))
      && |h'.out| <= |h.out| && |h'.err| <= |h.err|
      && (write.Wrote? && (if toErr then h.err else h.out) != [] ==> |h'.out| + |h'.err| < |h.out| + |h.err|)
  {
  }

  lemma {:induction false} OutputsServe(h: Host, e: HostPass, pollOut: bool, pollErr: bool)
    requires h.end.Running? && Writes(e.outWrite) && Writes(e.errWrite)
    ensures var h' := AfterOutputs(h, e, pollOut, pollErr);
      && h' == h.(out := h'.out, err := h'.err)
      && |h'.out| + |h'.err| <= |h.out| + |h.err|
      && (h.out != [] && pollOut && e.outReady && e.outWrite.Wrote? ==> |h'.out| + |h'.err| < |h.out| + |h.err|)
      && (h.err != [] && pollErr && e.errReady && e.errWrite.Wrote? ==> |h'.out| + |h'.err| < |h.out| + |h.err|)
  {
    StreamServes(h, false, e.outWrite);
    var wrote := if pollOut && e.outReady then AfterStream(h, false, e.outWrite) else h;
    StreamServes(wrote, true, e.errWrite);
  }

  lemma {:induction false} InputKeepsOutputs(h: Host, read: Incoming)
    ensures AfterInput(h, read) == h.(tx := AfterInput(h, read).tx, eof := AfterInput(h, read).eof)
  {
    if read.NotYet? {
    } else if read.Data? && read.bytes != [] {
    } else {
    }
  }

  lemma {:induction false} StreamsServe(h: Host, e: HostPass, pollInput: bool)
    requires h.end.Running? && Writes(e.outWrite) && Writes(e.errWrite)
    ensures var h' := AfterStreams(h, e, pollInput);
      && h' == h.(tx := h'.tx, eof := h'.eof, out := h'.out, err := h'.err)
      && Held(h') <= Held(h)
      && (h.out != [] && e.outReady && e.outWrite.Wrote? ==> Held(h') < Held(h))
      && (h.err != [] && e.errReady && e.errWrite.Wrote? ==> Held(h') < Held(h))
  {
    var read := if pollInput && e.inputReady then AfterInput(h, e.inputRead) else h;
    InputKeepsOutputs(h, e.inputRead);
    OutputsServe(read, e, h.out != [], h.err != []);
  }

  /** After poll: what is ready moves. */
  lemma {:induction false} HostServingDrains(w: World, e: HostPass) returns (w': World)
    requires Draining(w)
    requires Reads(e.channelRead) && Writes(e.channelWrite) && Writes(e.outWrite) && Writes(e.errWrite)
    requires PollsChannel(w.host) && e.channelReadable ==> Taken(w.host.rx, e.channelRead) <= w.toHost
    ensures Leads(w, w') && w'.host == AfterServing(w.host, e) && w'.guest == w.guest
    ensures w'.shellOut == w.shellOut && w'.shellErr == w.shellErr
    ensures Draining(w') && Backlog(w') <= Backlog(w)
    ensures (PollsChannel(w.host) && e.channelReadable && Taken(w.host.rx, e.channelRead) != [])
         || (w.host.out != [] && e.outReady && e.outWrite.Wrote?)
         || (w.host.err != [] && e.errReady && e.errWrite.Wrote?)
         ==> Backlog(w') < Backlog(w)
  {
    w' := ServingLifts(w, e);
    if PollsChannel(w.host) { ChannelServes(w.host, e); }
    var channelled := if PollsChannel(w.host) then AfterChannel(w.host, e) else w.host;
    StreamsServe(channelled, e, PollsInput(w.host));
    BacklogShares(w);
    BacklogShares(w');
  }

  ghost predicate HostMoves(w: World, e: HostPass, w': World) {
    w'.guest == w.guest && w'.host == AfterPass(w.host, e) && Leads(w, w')
  }

  /** With nothing left to send, in flight or to write, the launcher has the exit frame. */
  lemma {:induction false} NothingLeft(w: World)
    requires Inv(w) && w.guest.tx == [] && w.guest.sentExit && w.toHost == []
    requires w.host.end.Running? && !HostTakes(w.host) && w.host.out == [] && w.host.err == []
    ensures HostDrained(w.host)
  {
    StreamTakeBehind(w.sent, w.taken, w.host.rx, w.toHost, w.guest.tx);
  }

  /** The launcher's pass returns the status, or shrinks the backlog, or has nothing to work on. */
  lemma {:induction false} HostPassDrains(w: World, e: HostPass) returns (w': World)
    requires Inv(w) && Draining(w) && HostReady(w, e)
    ensures HostMoves(w, e, w') && Inv(w')
    ensures w'.shellOut == w.shellOut && w'.shellErr == w.shellErr
    ensures w'.host.end.Drained? || (Draining(w') && Backlog(w') <= Backlog(w))
    ensures w'.host.end.Drained? || Backlog(w') < Backlog(w) || w.guest.tx != [] || !w.guest.sentExit
  {
    w' := HostChecksDrain(w, e);
    if w'.host.end.Running? {
      var mid := w';
      if mid.host.out == [] && mid.host.err == [] && mid.toHost == [] && mid.guest.tx == [] && mid.guest.sentExit {
        NothingLeft(mid);
      }
      w' := HostServingDrains(mid, e);
      LeadsOn(w, mid, w');
      LeadsKeepsInv(w, w');
    }
    assert Leads(w, w');
  }

  // ----- Alternating passes -----

  ghost predicate Round(w: World, mid: World, w': World, init: World -> GuestPass, launcher: World -> HostPass) {
    GuestMoves(w, init(w), mid) && HostMoves(mid, launcher(mid), w')
  }

  /** Init's pass, then the launcher's, and so on, each meeting what the environment answers there. */
  ghost predicate Alternates(ws: seq<World>, init: World -> GuestPass, launcher: World -> HostPass) {
    |ws| == 1 || (|ws| >= 3 && Round(ws[0], ws[1], ws[2], init, launcher) && Alternates(ws[2..], init, launcher))
  }

  /** Nothing fails while draining, and work that is there is found. */
  ghost predicate Answers(init: World -> GuestPass, launcher: World -> HostPass) {
    forall w {:trigger init(w)} {:trigger launcher(w)} ::
      Inv(w) && Draining(w) ==> GuestReady(w, init(w)) && HostReady(w, launcher(w))
  }

  /** The launcher has returned the status the shell had in w, with all the output of w written. */
  ghost predicate Returned(w: World, end: World) {
    && end.host.end.Drained? && end.host.result == ExitCode(w.guest.status)
    && end.hostOut == w.shellOut && end.hostErr == w.shellErr
  }

  ghost predicate SameShell(w: World, w': World) {
    w'.shellOut == w.shellOut && w'.shellErr == w.shellErr && w'.guest.status == w.guest.status
  }

  lemma {:induction false} RoundDrains(w: World, init: World -> GuestPass, launcher: World -> HostPass)
    returns (mid: World, w': World)
    requires Inv(w) && Draining(w) && Answers(init, launcher)
    ensures Round(w, mid, w', init, launcher)
    ensures Returned(w, w') || (Inv(w') && Draining(w') && SameShell(w, w') && Backlog(w') < Backlog(w))
  {
    mid := GuestPassDrains(w, init(w));
    w' := HostPassDrains(mid, launcher(mid));
    if w'.host.end.Drained? { OutputPrefix(w'); }
  }

  /** From every reachable draining state, whatever the environment answers as long as nothing fails
      and work that is there is found, alternating passes return the shell's status with all of its
      output written, within as many rounds as the backlog counts. */
  lemma {:induction false} AlternatingPassesReturn(w: World, init: World -> GuestPass, launcher: World -> HostPass)
    returns (ws: seq<World>)
    requires Inv(w) && Draining(w) && Answers(init, launcher)
    ensures Alternates(ws, init, launcher) && ws[0] == w && |ws| <= 2 * Backlog(w) + 3
    ensures Returned(w, ws[|ws| - 1])
    decreases Backlog(w)
  {
    var mid, next := RoundDrains(w, init, launcher);
    if Returned(w, next) {
      ws := [w, mid, next];
      assert Alternates(ws[2..], init, launcher);
    } else {
      var rest := AlternatingPassesReturn(next, init, launcher);
      ws := [w, mid] + rest;
      assert ws[2..] == rest;
    }
  }

  lemma {:induction false} ChannelIsRead(w: World)
    requires Inv(w) && Draining(w) && !HostTakes(w.host) && !HostDrained(w.host)
    requires w.host.out == [] && w.host.err == [] && w.toHost != []
    ensures PollsChannel(w.host) && Taken(w.host.rx, Data(w.toHost[..1])) == w.toHost[..1]
  {
    StreamTakeBehind(w.sent, w.taken, w.host.rx, w.toHost, w.guest.tx);
  }

  /** Such answers exist everywhere: while there is work, a descriptor that would find it is polled. */
  lemma {:induction false} ReadyAnswersExist(w: World) returns (init: GuestPass, launcher: HostPass)
    requires Inv(w) && Draining(w)
    ensures GuestReady(w, init) && HostReady(w, launcher)
  {
    init := GuestPass(false, 0, false, false, false, true, false, false, false,
                      NotYet, Wrote(1), Busy, NotYet, NotYet);
    launcher := ReadyLauncher(w);
  }

  lemma {:induction false} ReadyLauncher(w: World) returns (e: HostPass)
    requires Inv(w) && Draining(w)
    ensures HostReady(w, e)
  {
    var read := if w.toHost == [] then NotYet else Data(w.toHost[..1]);
    e := HostPass(0, [0, 0, 0, 0, 0, 0, 0, 0], false, false, false, false, true, false, false, true, true,
                  read, Busy, NotYet, Wrote(1), Wrote(1));
    var mid := HostChecksDrain(w, e);
    if mid.host.end.Running? && mid.host.out == [] && mid.host.err == [] && mid.toHost != [] {
      ChannelIsRead(mid);
    }
    ReadyBecause(w, e, mid.host);
  }

  lemma {:induction false} ReadyBecause(w: World, e: HostPass, h: Host)
    requires h == AfterChecks(w.host, e)
    requires e.signal == 0 && |e.window| == WINSIZE && !e.late && !e.pollFails && !e.pollInterrupted
    requires e.channelReadable && e.channelRead == (if w.toHost == [] then NotYet else Data(w.toHost[..1]))
    requires e.channelWrite.Busy? && e.outWrite == Wrote(1) && e.errWrite == Wrote(1) && e.outReady && e.errReady
    requires h.end.Running? && h.out == [] && h.err == [] && w.toHost != [] ==>
               PollsChannel(h) && Taken(h.rx, Data(w.toHost[..1])) == w.toHost[..1]
    ensures HostReady(w, e)
  {
  }
}
