/** The console loop of the VM's init as it runs, in the same manner as the launcher's. */
module ConsoleGuest {
  import opened Bytes
  import opened ConsoleFrames
  import opened ConsoleQueue
  import opened ConsoleModel
  import opened ConsoleHost

  datatype GuestPass = GuestPass(
    reaped: bool, status: nat, pollFails: bool, pollInterrupted: bool,
    channelReadable: bool, channelWritable: bool, inputReady: bool, outReady: bool, errReady: bool,
    channelRead: Incoming, channelWrite: Outgoing, inputWrite: Outgoing, outRead: Incoming, errRead: Incoming)

  // ----- The loop body on queue contents -----

  function ThenReap(g: Guest, e: GuestPass): Guest {
    if !g.exited && e.reaped then g.(exited := true, status := e.status) else g
  }

  function ThenFrames(g: Guest): Guest
    decreases if g.end.Serving? then 1 else 0, |g.rx|
  {
    if g.end.Serving? && GuestTakes(g) then ThenFrames(GuestTaken(g)) else g
  }

  function ThenClose(g: Guest): Guest {
    if g.eof && !g.terminal && g.inputOpen && |g.input| == 0 then g.(inputOpen := false) else g
  }

  function ThenExit(g: Guest): Guest {
    if g.exited && !g.outputOpen && !g.errorsOpen && !g.sentExit && Room(g.tx) >= 12
    then g.(tx := g.tx + Encode(ExitFrame(g.status)), sentExit := true) else g
  }

  function ThenLeave(g: Guest, e: GuestPass): Guest {
    if g.sentExit && |g.tx| == 0 then g.(end := Finished)
    else if e.pollFails then g.(end := PoweredDown)
    else g
  }

  function ThenChecks(g: Guest, e: GuestPass): Guest {
    var framed := ThenFrames(ThenReap(g, e));
    if framed.end.Serving? then ThenLeave(ThenExit(ThenClose(framed)), e) else framed
  }

  function ThenReceive(g: Guest, read: Incoming): Guest {
    if Room(g.rx) <= 0 || read.NotYet? then g
    else if read.Data? && read.bytes != [] then g.(rx := g.rx + Clip(read.bytes, Least(Room(g.rx), SB_CHUNK)))
    else g.(end := PoweredDown)
  }

  function ThenFlush(g: Guest, write: Outgoing): Guest {
    if |g.tx| == 0 || write.Busy? then g
    else if write.Wrote? && write.count > 0 then g.(tx := g.tx[Least(write.count, |g.tx|)..])
    else g.(end := PoweredDown)
  }

  function ThenChannel(g: Guest, e: GuestPass): Guest {
    var received := if e.channelReadable then ThenReceive(g, e.channelRead) else g;
    if received.end.Serving? && e.channelWritable then ThenFlush(received, e.channelWrite) else received
  }

  function ThenInput(g: Guest, write: Outgoing): Guest {
    if |g.input| == 0 || write.Busy? then g
    else if write.Wrote? && write.count > 0 then g.(input := g.input[Least(write.count, |g.input|)..])
    else g.(inputOpen := false, input := [])
  }

  /** One of the shell's output streams; errors selects standard error. */
  function ThenShell(g: Guest, errors: bool, read: Incoming): Guest {
    if Room(g.tx) < SB_CHUNK + 8 || read.NotYet? then g
    else if read.Data? && read.bytes != [] then
      g.(tx := g.tx + Encode(Frame(if errors then SB_ERROR else SB_OUTPUT, Clip(read.bytes, SB_CHUNK))))
    else if errors then g.(errorsOpen := false)
    else g.(outputOpen := false, inputOpen := g.inputOpen && !g.terminal)
  }

  /** The descriptors handed to poll. */
  datatype Polls = Polls(channel: bool, input: bool, out: bool, err: bool)

  function Polled(g: Guest): Polls {
    Polls(Room(g.rx) >= SB_CHUNK || |g.tx| != 0, g.inputOpen && |g.input| != 0,
          g.outputOpen && Room(g.tx) >= SB_CHUNK + 8, g.errorsOpen && Room(g.tx) >= SB_CHUNK + 8)
  }

  function ThenShells(g: Guest, e: GuestPass, polls: Polls): Guest {
    var out := if polls.out && e.outReady then ThenShell(g, false, e.outRead) else g;
    if polls.err && e.errReady then ThenShell(out, true, e.errRead) else out
  }

  function ThenStreams(g: Guest, e: GuestPass, polls: Polls): Guest {
    ThenShells(if polls.input && e.inputReady then ThenInput(g, e.inputWrite) else g, e, polls)
  }

  function ThenServed(g: Guest, e: GuestPass, polls: Polls): Guest {
    var channelled := if polls.channel then ThenChannel(g, e) else g;
    if channelled.end.Serving? then ThenStreams(channelled, e, polls) else channelled
  }

  function ThenServing(g: Guest, e: GuestPass): Guest {
    ThenServed(g, e, Polled(g))
  }

  function ThenPass(g: Guest, e: GuestPass): Guest {
    var checked := ThenChecks(g, e);
    if !checked.end.Serving? || e.pollInterrupted then checked else ThenServing(checked, e)
  }

  class GuestRelay {
    const rx: Queue
    const tx: Queue
    const input: Queue
    const terminal: bool
    var eof: bool
    var exited: bool
    var sentExit: bool
    var status: nat
    var inputOpen: bool
    var outputOpen: bool
    var errorsOpen: bool
    var end: GuestEnd

    ghost predicate Valid()
      reads this, rx, tx, input, rx.data, tx.data, input.data
    {
      && rx.Valid() && tx.Valid() && input.Valid()
      && rx != tx && rx != input && tx != input
      && rx.data != tx.data && rx.data != input.data && tx.data != input.data
    }

    ghost function View(): Guest
      requires Valid()
      reads this, rx, tx, input, rx.data, tx.data, input.data
    {
      Guest(rx.Contents(), tx.Contents(), input.Contents(), eof, exited, sentExit, status,
            inputOpen, outputOpen, errorsOpen, terminal, end)
    }

    constructor (terminal: bool)
      ensures Valid() && View() == GuestStart(terminal)
    {
      rx := new Queue();
      tx := new Queue();
      input := new Queue();
      this.terminal := terminal;
      eof, exited, sentExit, status := false, false, false, 32000;
      inputOpen, outputOpen, errorsOpen, end := true, true, !terminal, Serving;
      new;
      var queued := tx.Packet(SB_READY, []);
      assert queued;
      assert [] + Encode(Frame(SB_READY, [])) == Encode(Frame(SB_READY, []));
    }

    /** Input for the shell: queued, left in place while it does not fit, or discarded when nobody reads it. */
    method TakeInput(size: nat) returns (blocked: bool)
      requires Valid() && end.Serving? && !eof && 8 + size <= |View().rx|
      modifies rx, input, input.data
      ensures Valid()
      ensures var f := Frame(SB_INPUT, old(View()).rx[8..8 + size]);
        && blocked == GuestBlocked(old(View()), f)
        && View() == if blocked then old(View()) else GuestAccept(old(View()), f)
    {
      if input.Room() < size {
        return true;
      }
      if inputOpen {
        var data := rx.Payload(size);
        var appended := input.Append(data);
      }
      rx.Consume(8 + size);
      blocked := false;
    }

    /** End of input: on a terminal it becomes the ^D character. */
    method TakeEof() returns (blocked: bool)
      requires Valid() && end.Serving? && !eof && 8 <= |View().rx|
      modifies this`eof, rx, input, input.data
      ensures Valid()
      ensures var f := Frame(SB_EOF, []);
        && blocked == GuestBlocked(old(View()), f)
        && View() == if blocked then old(View()) else GuestAccept(old(View()), f)
    {
      if terminal && inputOpen {
        if input.Room() == 0 {
          return true;
        }
        var appended := input.Append([4]);
      }
      eof := true;
      rx.Consume(8);
      blocked := false;
    }

    method TakeFrame(kind: nat, size: nat) returns (blocked: bool)
      requires Valid() && end.Serving? && 8 + size <= |View().rx|
      modifies this, rx, input, input.data
      ensures Valid()
      ensures var f := Frame(kind, old(View()).rx[8..8 + size]);
        && blocked == GuestBlocked(old(View()), f)
        && View() == if blocked then old(View()) else GuestAccept(old(View()), f)
    {
      blocked := false;
      if kind == SB_INPUT && !eof {
        blocked := TakeInput(size);
      } else if kind == SB_EOF && size == 0 && !eof {
        assert View().rx[8..8] == [];
        blocked := TakeEof();
      } else {
        TakeOther(kind, size);
      }
    }

    /** A window size is acted on elsewhere; anything else breaks the protocol. */
    method TakeOther(kind: nat, size: nat)
      requires Valid() && end.Serving? && 8 + size <= |View().rx|
      requires !(kind == SB_INPUT && !eof) && !(kind == SB_EOF && size == 0 && !eof)
      modifies this`end, rx
      ensures Valid()
      ensures var f := Frame(kind, old(View()).rx[8..8 + size]);
        !GuestBlocked(old(View()), f) && View() == GuestAccept(old(View()), f)
    {
      if kind == SB_WINDOW && size == WINSIZE {
        rx.Consume(8 + size);
      } else {
        end := Rejected;
      }
    }

    method TakeNext() returns (stopped: bool)
      requires Valid() && end.Serving?
      modifies this, rx, input, input.data
      ensures Valid()
      ensures stopped == !GuestTakes(old(View()))
      ensures View() == if stopped then old(View()) else GuestTaken(old(View()))
      ensures !stopped && end.Serving? ==> |rx.Contents()| < |old(rx.Contents())|
    {
      var frame, kind, size := rx.PeekFrame();
      stopped := frame == 0;
      if frame < 0 {
        end := Rejected;
      } else if frame > 0 {
        stopped := TakeFrame(kind, size);
      }
    }

    method TakeFrames() returns (ghost acts: seq<GuestAction>)
      requires Valid() && end.Serving?
      modifies this, rx, input, input.data
      ensures Valid() && GuestLeads(old(View()), acts, View())
      ensures View() == ThenFrames(old(View()))
    {
      acts := [];
      var stopped := false;
      while !stopped && end.Serving?
        invariant Valid() && GuestLeads(old(View()), acts, View())
        invariant ThenFrames(View()) == ThenFrames(old(View()))
        invariant stopped ==> !GuestTakes(View())
        decreases if end.Serving? then 1 else 0, if stopped then 0 else 1, |rx.Contents()|
      {
        ghost var before := View();
        stopped := TakeNext();
        if !stopped {
          GuestLeadsOnce(before, GTake);
          GuestLeadsOn(old(View()), acts, before, [GTake], View());
          acts := acts + [GTake];
        }
      }
    }

    method Reap(e: GuestPass) returns (ghost acts: seq<GuestAction>)
      requires Valid() && end.Serving?
      modifies this`exited, this`status
      ensures Valid() && GuestLeads(old(View()), acts, View())
      ensures View() == ThenReap(old(View()), e)
    {
      acts := [];
      if !exited && e.reaped {
        exited, status := true, e.status;
        GuestLeadsOnce(old(View()), GReap(e.status));
        acts := [GReap(e.status)];
      }
    }

    method CloseInput() returns (ghost acts: seq<GuestAction>)
      requires Valid() && end.Serving?
      modifies this`inputOpen
      ensures Valid() && GuestLeads(old(View()), acts, View())
      ensures View() == ThenClose(old(View()))
    {
      acts := [];
      if eof && !terminal && inputOpen && input.Size() == 0 {
        inputOpen := false;
        GuestLeadsOnce(old(View()), GCloseInput);
        acts := [GCloseInput];
      }
    }

    /** The exit frame is queued once the shell is gone, its streams are closed, and it fits. */
    method SendExit() returns (ghost acts: seq<GuestAction>)
      requires Valid() && end.Serving?
      modifies this`sentExit, tx, tx.data
      ensures Valid() && GuestLeads(old(View()), acts, View())
      ensures View() == ThenExit(old(View()))
    {
      acts := [];
      if exited && !outputOpen && !errorsOpen && !sentExit && tx.Room() >= 12 {
        var queued := tx.Packet(SB_EXIT, Le(ExitCode(status), 4));
        assert queued;
        sentExit := true;
        GuestLeadsOnce(old(View()), GSendExit);
        acts := [GSendExit];
      }
    }

    method Leave(e: GuestPass) returns (ghost acts: seq<GuestAction>)
      requires Valid() && end.Serving?
      modifies this`end
      ensures Valid() && GuestLeads(old(View()), acts, View())
      ensures View() == ThenLeave(old(View()), e)
    {
      acts := [];
      if sentExit && tx.Size() == 0 {
        end := Finished;
        GuestLeadsOnce(old(View()), GFinish);
        acts := [GFinish];
      } else if e.pollFails {
        end := PoweredDown;
        GuestLeadsOnce(old(View()), GPowerDown);
        acts := [GPowerDown];
      }
    }

    method BeforePoll(e: GuestPass) returns (ghost acts: seq<GuestAction>)
      requires Valid() && end.Serving?
      modifies this, rx, tx, input, tx.data, input.data
      ensures Valid() && GuestLeads(old(View()), acts, View())
      ensures View() == ThenChecks(old(View()), e)
    {
      acts := Reap(e);
      ghost var mid := View();
      ghost var more := TakeFrames();
      GuestLeadsOn(old(View()), acts, mid, more, View());
      acts := acts + more;
      if end.Serving? {
        mid := View();
        more := AfterFrames(e);
        GuestLeadsOn(old(View()), acts, mid, more, View());
        acts := acts + more;
      }
    }

    method AfterFrames(e: GuestPass) returns (ghost acts: seq<GuestAction>)
      requires Valid() && end.Serving?
      modifies this, tx, tx.data
      ensures Valid() && GuestLeads(old(View()), acts, View())
      ensures View() == ThenLeave(ThenExit(ThenClose(old(View()))), e)
    {
      acts := CloseInput();
      ghost var mid := View();
      ghost var more := SendExit();
      GuestLeadsOn(old(View()), acts, mid, more, View());
      acts := acts + more;
      mid := View();
      more := Leave(e);
      GuestLeadsOn(old(View()), acts, mid, more, View());
      acts := acts + more;
    }

    method Receive(read: Incoming) returns (ghost acts: seq<GuestAction>)
      requires Valid() && end.Serving?
      modifies this`end, rx, rx.data
      ensures Valid() && GuestLeads(old(View()), acts, View())
      ensures View() == ThenReceive(old(View()), read)
    {
      var room := rx.Room();
      acts := [];
      if room == 0 || read.NotYet? {
        return;
      }
      if read.Data? && read.bytes != [] {
        var bytes := Clip(read.bytes, Least(room, SB_CHUNK));
        var appended := rx.Append(bytes);
        GuestLeadsOnce(old(View()), GReceive(bytes));
        acts := [GReceive(bytes)];
      } else {
        end := PoweredDown;
        GuestLeadsOnce(old(View()), GPowerDown);
        acts := [GPowerDown];
      }
    }

    method FlushChannel(write: Outgoing) returns (ghost acts: seq<GuestAction>)
      requires Valid() && end.Serving?
      modifies this`end, tx
      ensures Valid() && GuestLeads(old(View()), acts, View())
      ensures View() == ThenFlush(old(View()), write)
    {
      acts := [];
      if tx.Size() == 0 || write.Busy? {
        return;
      }
      if write.Wrote? && write.count > 0 {
        var n := Least(write.count, tx.Size());
        tx.Consume(n);
        GuestLeadsOnce(old(View()), GFlush(n));
        acts := [GFlush(n)];
      } else {
        end := PoweredDown;
        GuestLeadsOnce(old(View()), GPowerDown);
        acts := [GPowerDown];
      }
    }

    method ServeChannel(e: GuestPass) returns (ghost acts: seq<GuestAction>)
      requires Valid() && end.Serving?
      modifies this`end, rx, tx, rx.data
      ensures Valid() && GuestLeads(old(View()), acts, View())
      ensures View() == ThenChannel(old(View()), e)
    {
      acts := [];
      if e.channelReadable {
        acts := Receive(e.channelRead);
      }
      if end.Serving? && e.channelWritable {
        ghost var mid := View();
        ghost var more := FlushChannel(e.channelWrite);
        GuestLeadsOn(old(View()), acts, mid, more, View());
        acts := acts + more;
      }
    }

    /** A broken shell input is closed and what was queued for it is dropped. */
    method FlushInput(write: Outgoing) returns (ghost acts: seq<GuestAction>)
      requires Valid() && end.Serving? && inputOpen
      modifies this`inputOpen, input
      ensures Valid() && GuestLeads(old(View()), acts, View())
      ensures View() == ThenInput(old(View()), write)
    {
      acts := [];
      if input.Size() == 0 || write.Busy? {
        return;
      }
      if write.Wrote? && write.count > 0 {
        var n := Least(write.count, input.Size());
        input.Consume(n);
        GuestLeadsOnce(old(View()), GWriteInput(n));
        acts := [GWriteInput(n)];
      } else {
        inputOpen := false;
        input.Reset();
        GuestLeadsOnce(old(View()), GInputFail);
        acts := [GInputFail];
      }
    }

    /** Shell output is only read when a whole frame fits, so its packet is never refused. */
    method ReadShell(errors: bool, read: Incoming) returns (ghost acts: seq<GuestAction>)
      requires Valid() && end.Serving? && (if errors then errorsOpen else outputOpen)
      modifies this`inputOpen, this`outputOpen, this`errorsOpen, tx, tx.data
      ensures Valid() && GuestLeads(old(View()), acts, View())
      ensures View() == ThenShell(old(View()), errors, read)
      ensures !errors ==> errorsOpen == old(errorsOpen)
    {
      acts := [];
      if tx.Room() < SB_CHUNK + 8 || read.NotYet? {
        return;
      }
      ghost var a;
      if read.Data? && read.bytes != [] {
        var bytes := Clip(read.bytes, SB_CHUNK);
        var queued := tx.Packet(if errors then SB_ERROR else SB_OUTPUT, bytes);
        assert queued;
        a := if errors then GReadErr(bytes) else GReadOut(bytes);
      } else if errors {
        errorsOpen := false;
        a := GErrEof;
      } else {
        outputOpen := false;
        if terminal {
          inputOpen := false;
        }
        a := GOutEof;
      }
      GuestLeadsOnce(old(View()), a);
      acts := [a];
    }

    method ServeStreams(e: GuestPass, polls: Polls) returns (ghost acts: seq<GuestAction>)
      requires Valid() && end.Serving?
      requires (polls.input ==> inputOpen) && (polls.out ==> outputOpen) && (polls.err ==> errorsOpen)
      modifies this, tx, input, tx.data
      ensures Valid() && GuestLeads(old(View()), acts, View())
      ensures View() == ThenStreams(old(View()), e, polls)
    {
      acts := [];
      if polls.input && e.inputReady {
        acts := FlushInput(e.inputWrite);
      }
      ghost var mid := View();
      ghost var more;
      if polls.out && e.outReady {
        more := ReadShell(false, e.outRead);
        GuestLeadsOn(old(View()), acts, mid, more, View());
        acts := acts + more;
      }
      mid := View();
      if polls.err && e.errReady {
        more := ReadShell(true, e.errRead);
        GuestLeadsOn(old(View()), acts, mid, more, View());
        acts := acts + more;
      }
    }

    method Served(e: GuestPass, polls: Polls) returns (ghost acts: seq<GuestAction>)
      requires Valid() && end.Serving?
      requires (polls.input ==> inputOpen) && (polls.out ==> outputOpen) && (polls.err ==> errorsOpen)
      modifies this, rx, tx, input, rx.data, tx.data
      ensures Valid() && GuestLeads(old(View()), acts, View())
      ensures View() == ThenServed(old(View()), e, polls)
    {
      acts := [];
      if polls.channel {
        acts := ServeChannel(e);
      }
      ghost var mid := View();
      assert mid == if polls.channel then ThenChannel(old(View()), e) else old(View());
      if end.Serving? {
        ghost var more := ServeStreams(e, polls);
        GuestLeadsOn(old(View()), acts, mid, more, View());
        acts := acts + more;
      }
    }

    method Serve(e: GuestPass) returns (ghost acts: seq<GuestAction>)
      requires Valid() && end.Serving?
      modifies this, rx, tx, input, rx.data, tx.data
      ensures Valid() && GuestLeads(old(View()), acts, View())
      ensures View() == ThenServing(old(View()), e)
    {
      var polls := Polls(rx.Room() >= SB_CHUNK || tx.Size() != 0, inputOpen && input.Size() != 0,
                         outputOpen && tx.Room() >= SB_CHUNK + 8, errorsOpen && tx.Room() >= SB_CHUNK + 8);
      acts := Served(e, polls);
    }

    /** One pass through the loop computes ThenPass, and is a sequence of enabled model actions. */
    method Pass(e: GuestPass) returns (ghost acts: seq<GuestAction>)
      requires Valid() && end.Serving?
      modifies this, rx, tx, input, rx.data, tx.data, input.data
      ensures Valid() && GuestLeads(old(View()), acts, View())
      ensures View() == ThenPass(old(View()), e)
    {
      acts := BeforePoll(e);
      if end.Serving? && !e.pollInterrupted {
        ghost var mid := View();
        ghost var more := Serve(e);
        GuestLeadsOn(old(View()), acts, mid, more, View());
        acts := acts + more;
      }
    }
  }
}
