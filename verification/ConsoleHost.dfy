/** The launcher's console loop as it runs: queues updated in place, with the outcome of every
    system call supplied from outside. Each iteration is a sequence of the model's actions. */
module ConsoleHost {
  import opened Bytes
  import opened ConsoleFrames
  import opened ConsoleQueue
  import opened ConsoleModel

  /** read: some bytes, nothing yet (EAGAIN, EINTR), or end of file and errors. */
  datatype Incoming = Data(bytes: seq<byte>) | NotYet | Ended

  /** write: how many bytes were accepted, nothing yet, or an error. */
  datatype Outgoing = Wrote(count: nat) | Busy | Broken

  /** What one pass through the loop meets. Ready flags are poll's answers; they count only for
      descriptors that were polled. */
  datatype HostPass = HostPass(
    signal: nat, window: seq<byte>, resized: bool, late: bool, pollFails: bool, pollInterrupted: bool,
    channelReadable: bool, channelWritable: bool, inputReady: bool, outReady: bool, errReady: bool,
    channelRead: Incoming, channelWrite: Outgoing, inputRead: Incoming, outWrite: Outgoing, errWrite: Outgoing)

  // ----- The loop body on queue contents -----

  function Clip(bytes: seq<byte>, limit: nat): seq<byte> {
    if |bytes| < limit then bytes else bytes[..limit]
  }

  function Least(a: nat, b: nat): nat {
    if a < b then a else b
  }

  function AfterWindow(h: Host, e: HostPass): Host {
    if e.resized && Room(h.tx) >= 8 + WINSIZE then h.(tx := h.tx + Encode(Frame(SB_WINDOW, e.window))) else h
  }

  /** Frames are taken until none is complete, one has to wait, or framing breaks. */
  function AfterFrames(h: Host): Host
    decreases if h.end.Running? then 1 else 0, |h.rx|
  {
    if h.end.Running? && HostTakes(h) then AfterFrames(HostTaken(h)) else h
  }

  function AfterLeave(h: Host, e: HostPass): Host {
    if !h.end.Running? then h
    else if h.receivedExit && h.out == [] && h.err == [] then h.(end := Drained)
    else if !h.connected && Peek(h.rx).Incomplete? && !h.receivedExit then h.(end := Disconnected)
    else if !h.ready && e.late then h.(end := TimedOut)
    else if e.pollFails then h.(end := PollFailed)
    else h
  }

  function AfterReceive(h: Host, read: Incoming): Host {
    if Room(h.rx) <= 0 || read.NotYet? then h
    else if read.Data? && read.bytes != [] then h.(rx := h.rx + Clip(read.bytes, Least(Room(h.rx), SB_CHUNK)))
    else h.(connected := false, tx := [])
  }

  function AfterFlush(h: Host, write: Outgoing): Host {
    if h.tx == [] || write.Busy? then h
    else if write.Wrote? && write.count > 0 then h.(tx := h.tx[Least(write.count, |h.tx|)..])
    else h.(end := ChannelFailed)
  }

  function AfterInput(h: Host, read: Incoming): Host {
    if read.NotYet? then h
    else if read.Data? && read.bytes != [] then h.(tx := h.tx + Encode(Frame(SB_INPUT, Clip(read.bytes, SB_CHUNK))))
    else h.(tx := h.tx + Encode(Frame(SB_EOF, [])), eof := true)
  }

  function AfterStream(h: Host, toErr: bool, write: Outgoing): Host {
    var q := if toErr then h.err else h.out;
    if q == [] || write.Busy? then h
    else if write.Wrote? && write.count > 0 then
      var left := q[Least(write.count, |q|)..];
      if toErr then h.(err := left) else h.(out := left)
    else h.(result := 141, end := OutputFailed)
  }

  function AfterChecks(h: Host, e: HostPass): Host {
    if e.signal != 0 then h.(result := 128 + e.signal, end := Interrupted)
    else AfterLeave(AfterFrames(AfterWindow(h, e)), e)
  }

  function AfterChannel(h: Host, e: HostPass): Host {
    var received := if e.channelReadable then AfterReceive(h, e.channelRead) else h;
    if received.connected && e.channelWritable then AfterFlush(received, e.channelWrite) else received
  }

  function AfterStreams(h: Host, e: HostPass, pollInput: bool): Host {
    var read := if pollInput && e.inputReady then AfterInput(h, e.inputRead) else h;
    AfterOutputs(read, e, h.out != [], h.err != [])
  }

  function AfterOutputs(h: Host, e: HostPass, pollOut: bool, pollErr: bool): Host {
    var wrote := if pollOut && e.outReady then AfterStream(h, false, e.outWrite) else h;
    if wrote.end.Running? && pollErr && e.errReady then AfterStream(wrote, true, e.errWrite) else wrote
  }

  /** What was polled is decided before any of it is served. */
  function AfterServing(h: Host, e: HostPass): Host {
    AfterServed(h, e, PollsChannel(h), PollsInput(h))
  }

  predicate PollsChannel(h: Host) {
    Live(h) && (Room(h.rx) >= SB_CHUNK || |h.tx| != 0)
  }

  predicate PollsInput(h: Host) {
    !h.eof && !h.receivedExit && Room(h.tx) >= SB_CHUNK + 8
  }

  function AfterServed(h: Host, e: HostPass, pollChannel: bool, pollInput: bool): Host {
    var channelled := if pollChannel then AfterChannel(h, e) else h;
    if channelled.end.Running? then AfterStreams(channelled, e, pollInput) else channelled
  }

  function AfterPass(h: Host, e: HostPass): Host {
    var checked := AfterChecks(h, e);
    if !checked.end.Running? || e.pollInterrupted then checked else AfterServing(checked, e)
  }

  lemma {:induction false} OutputAccepted(h: Host, kind: nat, size: nat)
    requires (kind == SB_OUTPUT || kind == SB_ERROR) && !h.receivedExit && 8 + size <= |h.rx|
    ensures var f := Frame(kind, h.rx[8..8 + size]);
      && (HostBlocked(h, f) <==> Room(if kind == SB_OUTPUT then h.out else h.err) < size)
      && HostAccept(h, f) ==
           if kind == SB_OUTPUT then h.(rx := h.rx[8 + size..], out := h.out + h.rx[8..8 + size])
           else h.(rx := h.rx[8 + size..], err := h.err + h.rx[8..8 + size])
  {
  }

  class HostRelay {
    const rx: Queue
    const tx: Queue
    const out: Queue
    const err: Queue
    var eof: bool
    var receivedExit: bool
    var ready: bool
    var connected: bool
    var result: nat
    var end: HostEnd

    ghost predicate Valid()
      reads this, rx, tx, out, err, rx.data, tx.data, out.data, err.data
    {
      && rx.Valid() && tx.Valid() && out.Valid() && err.Valid()
      && rx != tx && rx != out && rx != err && tx != out && tx != err && out != err
      && rx.data != tx.data && rx.data != out.data && rx.data != err.data
      && tx.data != out.data && tx.data != err.data && out.data != err.data
    }

    ghost function View(): Host
      requires Valid()
      reads this, rx, tx, out, err, rx.data, tx.data, out.data, err.data
    {
      Host(rx.Contents(), tx.Contents(), out.Contents(), err.Contents(),
           eof, receivedExit, ready, connected, result, end)
    }

    constructor ()
      ensures Valid() && View() == HOST_START
    {
      rx := new Queue();
      tx := new Queue();
      out := new Queue();
      err := new Queue();
      eof, receivedExit, ready, connected, result, end := false, false, false, true, 125, Running;
    }

    method ProtocolFailure()
      requires Valid()
      modifies this`result, this`receivedExit, this`end
      ensures Valid() && View() == HostProtocolError(old(View()))
    {
      result, receivedExit, end := 125, false, ProtocolError;
    }

    /** The payload of the head frame goes to a stream's queue if it fits there. */
    method MovePayload(to: Queue, size: nat) returns (blocked: bool)
      requires Valid() && (to == out || to == err) && 8 + size <= |rx.Contents()|
      modifies rx, to, to.data
      ensures Valid() && blocked == (Room(old(to.Contents())) < size)
      ensures rx.Contents() == if blocked then old(rx.Contents()) else old(rx.Contents())[8 + size..]
      ensures to.Contents() ==
                if blocked then old(to.Contents()) else old(to.Contents()) + old(rx.Contents())[8..8 + size]
    {
      if to.Room() < size {
        return true;
      }
      var data := rx.Payload(size);
      var appended := to.Append(data);
      rx.Consume(8 + size);
      blocked := false;
    }

    /** An output frame: moved to its stream's queue, or left in place while it does not fit. */
    method TakeOutput(kind: nat, size: nat) returns (blocked: bool)
      requires Valid() && end.Running? && (kind == SB_OUTPUT || kind == SB_ERROR) && !receivedExit
      requires 8 + size <= |View().rx|
      modifies rx, out, err, out.data, err.data
      ensures Valid()
      ensures var f := Frame(kind, old(View()).rx[8..8 + size]);
        && blocked == HostBlocked(old(View()), f)
        && View() == if blocked then old(View()) else HostAccept(old(View()), f)
    {
      OutputAccepted(View(), kind, size);
      if kind == SB_OUTPUT {
        blocked := MovePayload(out, size);
      } else {
        blocked := MovePayload(err, size);
      }
    }

    /** The exit frame: its code becomes the result and unsent input is dropped. */
    method TakeExit()
      requires Valid() && end.Running? && !receivedExit && 12 <= |View().rx|
      modifies this, rx, tx
      ensures Valid() && View() == HostAccept(old(View()), Frame(SB_EXIT, old(View()).rx[8..12]))
    {
      var data := rx.Payload(4);
      var code := FromLe(data);
      if code > 255 {
        ProtocolFailure();
      } else {
        receivedExit, result := true, code;
        tx.Reset();
        rx.Consume(12);
      }
    }

    method TakeFrame(kind: nat, size: nat) returns (blocked: bool)
      requires Valid() && end.Running? && 8 + size <= |View().rx|
      modifies this, rx, tx, out, err, out.data, err.data
      ensures Valid()
      ensures var f := Frame(kind, old(View()).rx[8..8 + size]);
        && blocked == HostBlocked(old(View()), f)
        && View() == if blocked then old(View()) else HostAccept(old(View()), f)
    {
      blocked := false;
      if (kind == SB_OUTPUT || kind == SB_ERROR) && !receivedExit {
        blocked := TakeOutput(kind, size);
      } else if kind == SB_READY && size == 0 && !ready && !receivedExit {
        ready := true;
        rx.Consume(8);
      } else if kind == SB_EXIT && size == 4 && !receivedExit {
        TakeExit();
      } else {
        ProtocolFailure();
      }
    }

    /** One turn of the frame loop; stopped when there is no frame or it has to wait. */
    method TakeNext() returns (frame: int, stopped: bool)
      requires Valid() && end.Running?
      modifies this, rx, tx, out, err, out.data, err.data
      ensures Valid()
      ensures stopped == !HostTakes(old(View()))
      ensures View() == if stopped then old(View()) else HostTaken(old(View()))
      ensures frame == 0 <==> Peek(old(View()).rx).Incomplete?
      ensures !stopped && end.Running? ==> |rx.Contents()| < |old(rx.Contents())|
      ensures end.Running? || end.ProtocolError?
    {
      var kind, size;
      frame, kind, size := rx.PeekFrame();
      stopped := frame == 0;
      if frame < 0 {
        ProtocolFailure();
      } else if frame > 0 {
        stopped := TakeFrame(kind, size);
      }
    }

    /** Handles complete frames until none is left or one has to wait; frame is the last answer of
        sb_peek: 1 for a frame that waits, 0 for none. */
    method TakeFrames() returns (frame: int, ghost acts: seq<HostAction>)
      requires Valid() && end.Running?
      modifies this, rx, tx, out, err, out.data, err.data
      ensures Valid() && HostLeads(old(View()), acts, View())
      ensures View() == AfterFrames(old(View()))
      ensures end.Running? ==> !HostTakes(View())
      ensures end.Running? ==> (frame == 0 <==> Peek(View().rx).Incomplete?)
    {
      acts, frame := [], 1;
      var stopped := false;
      while !stopped && end.Running?
        invariant Valid() && HostLeads(old(View()), acts, View())
        invariant AfterFrames(View()) == AfterFrames(old(View()))
        invariant stopped ==> end.Running? && !HostTakes(View()) && (frame == 0 <==> Peek(View().rx).Incomplete?)
        decreases if end.Running? then 1 else 0, if stopped then 0 else 1, |rx.Contents()|
      {
        ghost var before := View();
        frame, stopped := TakeNext();
        if !stopped {
          HostLeadsOnce(before, HTake);
          HostLeadsOn(old(View()), acts, before, [HTake], View());
          acts := acts + [HTake];
        }
      }
    }

    /** The window size is posted when it fits. */
    method PostWindow(size: seq<byte>) returns (ghost acts: seq<HostAction>)
      requires Valid() && end.Running? && |size| == WINSIZE
      modifies tx, tx.data
      ensures Valid() && HostLeads(old(View()), acts, View())
      ensures View() ==
                if Room(old(View()).tx) >= 8 + WINSIZE
                then old(View()).(tx := old(View()).tx + Encode(Frame(SB_WINDOW, size)))
                else old(View())
    {
      if tx.Room() >= 8 + WINSIZE {
        var queued := tx.Packet(SB_WINDOW, size);
        HostLeadsOnce(old(View()), HWindow(size));
        return [HWindow(size)];
      }
      acts := [];
    }

    /** sb_receive on the channel; end of file and errors disconnect. */
    method Receive(read: Incoming) returns (ghost acts: seq<HostAction>)
      requires Valid() && end.Running? && Live(View())
      modifies this`connected, rx, rx.data, tx
      ensures Valid() && HostLeads(old(View()), acts, View())
      ensures View() == AfterReceive(old(View()), read)
      ensures tx.Room() >= old(tx.Room())
    {
      var room := rx.Room();
      acts := [];
      if room == 0 || read.NotYet? {
        return;
      }
      if read.Data? && read.bytes != [] {
        var n := if room < SB_CHUNK then room else SB_CHUNK;
        var bytes := if |read.bytes| < n then read.bytes else read.bytes[..n];
        var appended := rx.Append(bytes);
        HostLeadsOnce(old(View()), HReceive(bytes));
        acts := [HReceive(bytes)];
      } else {
        connected := false;
        tx.Reset();
        HostLeadsOnce(old(View()), HDisconnect);
        acts := [HDisconnect];
      }
    }

    /** sb_flush on the channel. */
    method FlushChannel(write: Outgoing) returns (ghost acts: seq<HostAction>)
      requires Valid() && end.Running? && Live(View())
      modifies this`end, tx
      ensures Valid() && HostLeads(old(View()), acts, View())
      ensures View() == AfterFlush(old(View()), write)
      ensures tx.Room() >= old(tx.Room())
    {
      acts := [];
      if tx.Size() == 0 || write.Busy? {
        return;
      }
      if write.Wrote? && write.count > 0 {
        var n := if write.count < tx.Size() then write.count else tx.Size();
        tx.Consume(n);
        HostLeadsOnce(old(View()), HFlush(n));
        acts := [HFlush(n)];
      } else {
        end := ChannelFailed;
        HostLeadsOnce(old(View()), HChannelFail);
        acts := [HChannelFail];
      }
    }

    /** Input is only read when a whole frame fits, so the packet calls whose result is ignored succeed. */
    method ReadInput(read: Incoming) returns (ghost acts: seq<HostAction>)
      requires Valid() && end.Running? && !eof && !receivedExit && Room(View().tx) >= SB_CHUNK + 8
      modifies this`eof, tx, tx.data
      ensures Valid() && HostLeads(old(View()), acts, View())
      ensures View() == AfterInput(old(View()), read)
    {
      acts := [];
      if read.NotYet? {
        return;
      }
      if read.Data? && read.bytes != [] {
        var bytes := if |read.bytes| < SB_CHUNK then read.bytes else read.bytes[..SB_CHUNK];
        var queued := tx.Packet(SB_INPUT, bytes);
        assert queued;
        HostLeadsOnce(old(View()), HReadInput(bytes));
        acts := [HReadInput(bytes)];
      } else {
        var queued := tx.Packet(SB_EOF, []);
        assert queued;
        eof := true;
        HostLeadsOnce(old(View()), HInputEof);
        acts := [HInputEof];
      }
    }

    /** stream_flush of one output queue; a broken stream ends the loop with status 141. */
    method FlushStream(toErr: bool, write: Outgoing) returns (ghost acts: seq<HostAction>)
      requires Valid() && end.Running?
      modifies this`end, this`result, out, err
      ensures Valid() && HostLeads(old(View()), acts, View())
      ensures View() == AfterStream(old(View()), toErr, write)
    {
      acts := [];
      var q := if toErr then err else out;
      if q.Size() == 0 || write.Busy? {
        return;
      }
      if write.Wrote? && write.count > 0 {
        var n := if write.count < q.Size() then write.count else q.Size();
        q.Consume(n);
        ghost var a := if toErr then HWriteErr(n) else HWriteOut(n);
        HostLeadsOnce(old(View()), a);
        acts := [a];
      } else {
        result, end := 141, OutputFailed;
        HostLeadsOnce(old(View()), HOutputFail);
        acts := [HOutputFail];
      }
    }

    /** Everything before poll: signals, window size, frames, and the ways to leave the loop. */
    method BeforePoll(e: HostPass) returns (ghost acts: seq<HostAction>)
      requires Valid() && end.Running? && e.signal <= 64 && |e.window| == WINSIZE
      modifies this, rx, tx, out, err, tx.data, out.data, err.data
      ensures Valid() && HostLeads(old(View()), acts, View())
      ensures View() == AfterChecks(old(View()), e)
    {
      acts := [];
      if e.signal != 0 {
        result, end := 128 + e.signal, Interrupted;
        HostLeadsOnce(old(View()), HInterrupt(e.signal));
        return [HInterrupt(e.signal)];
      }
      if e.resized {
        acts := PostWindow(e.window);
      }
      ghost var posted := View();
      ghost var more;
      var frame;
      frame, more := TakeFrames();
      HostLeadsOn(old(View()), acts, posted, more, View());
      acts := acts + more;
      if end.Running? {
        ghost var before := View();
        more := Leave(e, frame);
        HostLeadsOn(old(View()), acts, before, more, View());
        acts := acts + more;
      }
    }

    method Leave(e: HostPass, frame: int) returns (ghost acts: seq<HostAction>)
      requires Valid() && end.Running?
      requires frame == 0 <==> Peek(View().rx).Incomplete?
      modifies this`end
      ensures Valid() && HostLeads(old(View()), acts, View())
      ensures View() == AfterLeave(old(View()), e)
    {
      acts := [];
      if receivedExit && out.Size() == 0 && err.Size() == 0 {
        end := Drained;
        HostLeadsOnce(old(View()), HFinish);
        acts := [HFinish];
      } else if !connected && frame == 0 && !receivedExit {
        end := Disconnected;
        HostLeadsOnce(old(View()), HNoticeDisconnect);
        acts := [HNoticeDisconnect];
      } else if !ready && e.late {
        end := TimedOut;
        HostLeadsOnce(old(View()), HTimeOut);
        acts := [HTimeOut];
      } else if e.pollFails {
        end := PollFailed;
        HostLeadsOnce(old(View()), HPollFail);
        acts := [HPollFail];
      }
    }

    /** Channel traffic after poll. */
    method ServeChannel(e: HostPass) returns (ghost acts: seq<HostAction>)
      requires Valid() && end.Running? && Live(View())
      modifies this`end, this`connected, rx, tx, rx.data
      ensures Valid() && HostLeads(old(View()), acts, View())
      ensures View() == AfterChannel(old(View()), e)
      ensures tx.Room() >= old(tx.Room())
    {
      acts := [];
      if e.channelReadable {
        acts := Receive(e.channelRead);
      }
      if connected && e.channelWritable {
        ghost var before := View();
        ghost var more := FlushChannel(e.channelWrite);
        HostLeadsOn(old(View()), acts, before, more, View());
        acts := acts + more;
      }
    }

    /** The launcher's streams after poll. */
    method ServeStreams(e: HostPass, pollInput: bool) returns (ghost acts: seq<HostAction>)
      requires Valid() && end.Running?
      requires pollInput ==> !eof && !receivedExit && Room(View().tx) >= SB_CHUNK + 8
      modifies this, tx, out, err, tx.data
      ensures Valid() && HostLeads(old(View()), acts, View())
      ensures View() == AfterStreams(old(View()), e, pollInput)
    {
      var pollOut, pollErr := out.Size() != 0, err.Size() != 0;
      acts := [];
      if pollInput && e.inputReady {
        acts := ReadInput(e.inputRead);
      }
      ghost var before := View();
      ghost var more := ServeOutputs(e, pollOut, pollErr);
      HostLeadsOn(old(View()), acts, before, more, View());
      acts := acts + more;
    }

    method ServeOutputs(e: HostPass, pollOut: bool, pollErr: bool) returns (ghost acts: seq<HostAction>)
      requires Valid() && end.Running?
      modifies this`end, this`result, out, err
      ensures Valid() && HostLeads(old(View()), acts, View())
      ensures View() == AfterOutputs(old(View()), e, pollOut, pollErr)
    {
      acts := [];
      if pollOut && e.outReady {
        acts := FlushStream(false, e.outWrite);
      }
      if end.Running? && pollErr && e.errReady {
        ghost var before := View();
        ghost var more := FlushStream(true, e.errWrite);
        HostLeadsOn(old(View()), acts, before, more, View());
        acts := acts + more;
      }
    }

    method Serve(e: HostPass) returns (ghost acts: seq<HostAction>)
      requires Valid() && end.Running?
      modifies this, rx, tx, out, err, rx.data, tx.data, out.data, err.data
      ensures Valid() && HostLeads(old(View()), acts, View())
      ensures View() == AfterServing(old(View()), e)
    {
      var pollChannel := connected && !receivedExit && (rx.Room() >= SB_CHUNK || tx.Size() != 0);
      var pollInput := !eof && !receivedExit && tx.Room() >= SB_CHUNK + 8;
      acts := ServePolled(e, pollChannel, pollInput);
    }

    method ServePolled(e: HostPass, pollChannel: bool, pollInput: bool) returns (ghost acts: seq<HostAction>)
      requires Valid() && end.Running? && (pollChannel ==> Live(View())) && (pollInput ==> PollsInput(View()))
      modifies this, rx, tx, out, err, rx.data, tx.data, out.data, err.data
      ensures Valid() && HostLeads(old(View()), acts, View())
      ensures View() == AfterServed(old(View()), e, pollChannel, pollInput)
    {
      acts := [];
      if pollChannel {
        acts := ServeChannel(e);
      }
      if end.Running? {
        ghost var before := View();
        ghost var more := ServeStreams(e, pollInput);
        HostLeadsOn(old(View()), acts, before, more, View());
        acts := acts + more;
      }
    }

    /** One pass through the loop computes AfterPass, and is a sequence of enabled model actions. */
    method Pass(e: HostPass) returns (ghost acts: seq<HostAction>)
      requires Valid() && end.Running? && e.signal <= 64 && |e.window| == WINSIZE
      modifies this, rx, tx, out, err, rx.data, tx.data, out.data, err.data
      ensures Valid() && HostLeads(old(View()), acts, View())
      ensures View() == AfterPass(old(View()), e)
    {
      acts := BeforePoll(e);
      if end.Running? && !e.pollInterrupted {
        ghost var before := View();
        ghost var more := Serve(e);
        HostLeadsOn(old(View()), acts, before, more, View());
        acts := acts + more;
      }
    }
  }
}
