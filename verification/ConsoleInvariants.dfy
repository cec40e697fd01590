/** Invariants of the console protocol, kept by every step of the two loops. */
module ConsoleInvariants {
  import opened Bytes
  import opened ConsoleFrames
  import opened ConsoleModel

  // ----- Framed streams, independently of which side owns which queue -----

  /** The bytes held between two sides are the frames that one queued and the other has not taken. */
  ghost predicate Stream(frames: seq<Frame>, taken: nat, held: seq<byte>) {
    taken <= |frames| && held == EncodeAll(frames[taken..])
  }

  /** One kind's payloads: all of them were read by the sender, and those taken are written or queued. */
  ghost predicate Delivered(frames: seq<Frame>, taken: nat, kind: nat,
                            read: seq<byte>, written: seq<byte>, queued: seq<byte>) {
    && taken <= |frames|
    && Payloads(frames, kind) == read
    && Payloads(frames[..taken], kind) == written + queued
  }

  lemma {:induction false} StreamAppend(frames: seq<Frame>, taken: nat, held: seq<byte>, tail: seq<byte>, f: Frame)
    requires Stream(frames, taken, held + tail)
    ensures Stream(frames + [f], taken, held + (tail + Encode(f)))
  {
    EncodeAllAppend(frames[taken..], f);
    assert (frames + [f])[taken..] == frames[taken..] + [f];
    assert held + (tail + Encode(f)) == held + tail + Encode(f);
  }

  lemma {:induction false} StreamTake(frames: seq<Frame>, taken: nat, head: seq<byte>, rest: seq<byte>)
    requires AllSendable(frames)
    requires Stream(frames, taken, head + rest)
    ensures !Peek(head).Invalid?
    ensures Peek(head).Incomplete? ==> |head| < 8 + SB_CHUNK
    ensures Peek(head).Incomplete? && rest == [] ==> taken == |frames|
    ensures Peek(head).Complete? ==>
              && taken < |frames|
              && Peek(head).frame == frames[taken]
              && Stream(frames, taken + 1, head[8 + |frames[taken].payload|..] + rest)
  {
    var left := frames[taken..];
    PeekFindsFirstFrame(left, head, rest);
    if left != [] {
      assert left[0] == frames[taken];
      assert left[1..] == frames[taken + 1..];
      assert EncodeAll(left) == Encode(left[0]) + EncodeAll(left[1..]);
    }
  }

  lemma {:induction false} DeliveredAppend(frames: seq<Frame>, taken: nat, kind: nat,
                                         read: seq<byte>, written: seq<byte>,
                        queued: seq<byte>, f: Frame)
    requires Delivered(frames, taken, kind, read, written, queued)
    ensures Delivered(frames + [f], taken, kind, read + (if f.kind == kind then f.payload else []), written, queued)
  {
    PayloadsAppend(frames, f, kind);
    assert (frames + [f])[..taken] == frames[..taken];
  }

  lemma {:induction false} DeliveredTake(frames: seq<Frame>, taken: nat, kind: nat, read: seq<byte>,
                                         written: seq<byte>, queued: seq<byte>)
    requires Delivered(frames, taken, kind, read, written, queued) && taken < |frames|
    ensures Delivered(frames, taken + 1, kind, read, written,
                      queued + (if frames[taken].kind == kind then frames[taken].payload else []))
  {
    var more := if frames[taken].kind == kind then frames[taken].payload else [];
    PayloadsAppend(frames[..taken], frames[taken], kind);
    assert frames[..taken + 1] == frames[..taken] + [frames[taken]];
    assert written + (queued + more) == written + queued + more;
  }

  lemma {:induction false} DeliveredWrite(frames: seq<Frame>, taken: nat, kind: nat,
                                          read: seq<byte>, written: seq<byte>,
                       queued: seq<byte>, n: nat)
    requires Delivered(frames, taken, kind, read, written, queued) && n <= |queued|
    ensures Delivered(frames, taken, kind, read, written + queued[..n], queued[n..])
  {
  }

  lemma {:induction false} MoveBytes(a: seq<byte>, b: seq<byte>, c: seq<byte>, n: nat)
    requires n <= |b|
    ensures (a + b[..n]) + b[n..] + c == a + b + c
    ensures c + (a + b[..n]) + b[n..] == c + a + b
  {
  }

  // ----- From the shell to the launcher's streams -----

  /** What init queues: the ready frame, output frames, and at most one exit frame, last. */
  ghost predicate SentShape(fs: seq<Frame>, sentExit: bool, status: nat) {
    && AllSendable(fs)
    && fs != [] && fs[0] == Frame(SB_READY, [])
    && (sentExit ==> |fs| >= 2)
    && (forall i :: 1 <= i < |fs| ==>
          if sentExit && i == |fs| - 1 then fs[i] == ExitFrame(status) else IsOutput(fs[i]))
  }

  ghost predicate Bounds(w: World) {
    && |w.host.rx| <= SB_QUEUE && |w.host.tx| <= SB_QUEUE && |w.host.out| <= SB_QUEUE && |w.host.err| <= SB_QUEUE
    && |w.guest.rx| <= SB_QUEUE && |w.guest.tx| <= SB_QUEUE && |w.guest.input| <= SB_QUEUE
  }

  ghost predicate OutboundFlags(host: Host, guest: Guest, taken: nat, total: nat) {
    && (host.ready <==> taken > 0)
    && (host.receivedExit <==> guest.sentExit && taken == total)
    && (guest.sentExit ==> guest.exited && !guest.outputOpen && !guest.errorsOpen)
    && (guest.end.Finished? ==> guest.sentExit && guest.tx == [])
    && (host.receivedExit && !host.end.Interrupted? && !host.end.OutputFailed? ==>
          host.result == ExitCode(guest.status))
    && !host.end.ProtocolError?
    && (host.end.Drained? ==> HostDrained(host))
    && EndsByExit(host.end, host.receivedExit, HostDrained(host))
  }

  /** After the exit frame the loop ends drained, by a signal, by a broken stream, or because poll
      failed while output was still queued. */
  predicate EndsByExit(end: HostEnd, receivedExit: bool, drained: bool) {
    && (end.TimedOut? || end.Disconnected? || end.ChannelFailed? ==> !receivedExit)
    && (end.PollFailed? ==> !drained)
  }

  ghost predicate Outbound(w: World) {
    && SentShape(w.sent, w.guest.sentExit, w.guest.status)
    && Stream(w.sent, w.taken, w.host.rx + w.toHost + w.guest.tx)
    && Delivered(w.sent, w.taken, SB_OUTPUT, w.shellOut, w.hostOut, w.host.out)
    && Delivered(w.sent, w.taken, SB_ERROR, w.shellErr, w.hostErr, w.host.err)
    && OutboundFlags(w.host, w.guest, w.taken, |w.sent|)
    && Bounds(w)
  }

  lemma {:induction false} ExitFrameRoundTrip(status: nat)
    ensures Sendable(ExitFrame(status))
    ensures |ExitFrame(status).payload| == 4
    ensures FromLe(ExitFrame(status).payload) == ExitCode(status)
  {
    WordSizes();
    FromLeOfLe(ExitCode(status), 4);
  }

  lemma {:induction false} OutboundStart(terminal: bool)
    ensures Outbound(WorldStart(terminal))
  {
  }

  /** What the launcher does with a frame that init can have queued. */
  lemma {:induction false} HostAccepts(h: Host, f: Frame, first: bool, last: bool, status: nat)
    requires 8 + |f.payload| <= |h.rx| && h.end.Running?
    requires if first then f == Frame(SB_READY, []) else if last then f == ExitFrame(status) else IsOutput(f)
    requires !h.receivedExit && (h.ready <==> !first)
    ensures var h' := HostAccept(h, f);
      && h'.rx == h.rx[8 + |f.payload|..] && h'.end.Running? && h'.ready
      && h'.out == h.out + (if f.kind == SB_OUTPUT then f.payload else [])
      && h'.err == h.err + (if f.kind == SB_ERROR then f.payload else [])
      && (h'.receivedExit <==> !first && last)
      && (h'.receivedExit ==> h'.result == ExitCode(status) && h'.tx == [])
      && (!h'.receivedExit ==> h'.tx == h.tx)
      && h'.eof == h.eof && h'.connected == h.connected
  {
    ExitFrameRoundTrip(status);
    assert h.out + [] == h.out && h.err + [] == h.err;
  }

  lemma {:induction false} StreamTakeBehind(frames: seq<Frame>, taken: nat, rx: seq<byte>,
                                            flight: seq<byte>, tail: seq<byte>)
    requires AllSendable(frames)
    requires Stream(frames, taken, rx + flight + tail)
    ensures !Peek(rx).Invalid?
    ensures Peek(rx).Incomplete? ==> |rx| < 8 + SB_CHUNK
    ensures Peek(rx).Incomplete? && flight == [] && tail == [] ==> taken == |frames|
    ensures Peek(rx).Complete? ==>
              && taken < |frames|
              && Peek(rx).frame == frames[taken]
              && Stream(frames, taken + 1, rx[8 + |frames[taken].payload|..] + flight + tail)
  {
    var rest := flight + tail;
    assert rx + rest == rx + flight + tail;
    StreamTake(frames, taken, rx, rest);
    if Peek(rx).Complete? {
      var after := rx[8 + |frames[taken].payload|..];
      assert after + rest == after + flight + tail;
    }
  }

  lemma {:induction false} OutboundTaken(w: World, w': World, f: Frame)
    requires Outbound(w) && w.taken < |w.sent| && f == w.sent[w.taken]
    requires !w.host.receivedExit && w.host.end.Running? && 8 + |f.payload| <= |w.host.rx| && !HostBlocked(w.host, f)
    requires Stream(w.sent, w.taken + 1, w.host.rx[8 + |f.payload|..] + w.toHost + w.guest.tx)
    requires w' == w.(host := w'.host, taken := w.taken + 1) && w'.host == HostAccept(w.host, f)
    ensures Outbound(w') && w'.host.end.Running?
  {
    HostAccepts(w.host, f, w.taken == 0, w.guest.sentExit && w.taken == |w.sent| - 1, w.guest.status);
    DeliveredTake(w.sent, w.taken, SB_OUTPUT, w.shellOut, w.hostOut, w.host.out);
    DeliveredTake(w.sent, w.taken, SB_ERROR, w.shellErr, w.hostErr, w.host.err);
  }

  lemma {:induction false} OutboundTake(w: World)
    requires Outbound(w) && Can(w, HostStep(HTake))
    ensures Outbound(Do(w, HostStep(HTake)))
    ensures Do(w, HostStep(HTake)).host.end.Running?
  {
    StreamTakeBehind(w.sent, w.taken, w.host.rx, w.toHost, w.guest.tx);
    var f := w.sent[w.taken];
    OutboundTaken(w, w.(host := HostAccept(w.host, f), taken := w.taken + 1), f);
    assert HostDo(w.host, HTake) == HostAccept(w.host, f);
  }

  lemma {:induction false} OutboundReceive(w: World, bytes: seq<byte>)
    requires Outbound(w) && Can(w, HostStep(HReceive(bytes)))
    ensures Outbound(Do(w, HostStep(HReceive(bytes))))
  {
    assert bytes == w.toHost[..|bytes|];
    MoveBytes(w.host.rx, w.toHost, w.guest.tx, |bytes|);
  }

  lemma {:induction false} OutboundWriteOut(w: World, count: nat)
    requires Outbound(w) && Can(w, HostStep(HWriteOut(count)))
    ensures Outbound(Do(w, HostStep(HWriteOut(count))))
  {
    DeliveredWrite(w.sent, w.taken, SB_OUTPUT, w.shellOut, w.hostOut, w.host.out, count);
  }

  lemma {:induction false} OutboundWriteErr(w: World, count: nat)
    requires Outbound(w) && Can(w, HostStep(HWriteErr(count)))
    ensures Outbound(Do(w, HostStep(HWriteErr(count))))
  {
    DeliveredWrite(w.sent, w.taken, SB_ERROR, w.shellErr, w.hostErr, w.host.err, count);
  }

  lemma {:induction false} OutboundFlush(w: World, count: nat)
    requires Outbound(w) && Can(w, GuestStep(GFlush(count)))
    ensures Outbound(Do(w, GuestStep(GFlush(count))))
  {
    MoveBytes(w.toHost, w.guest.tx, w.host.rx, count);
  }

  lemma {:induction false} SentAppend(fs: seq<Frame>, f: Frame, status: nat, exit: bool)
    requires SentShape(fs, false, status)
    requires Sendable(f) && if exit then f == ExitFrame(status) else IsOutput(f)
    ensures SentShape(fs + [f], exit, status)
  {
  }

  lemma {:induction false} OutboundQueues(w: World, f: Frame)
    requires Outbound(w) && !w.guest.sentExit
    ensures Stream(w.sent + [f], w.taken, w.host.rx + w.toHost + (w.guest.tx + Encode(f)))
    ensures Delivered(w.sent + [f], w.taken, SB_OUTPUT,
                      w.shellOut + (if f.kind == SB_OUTPUT then f.payload else []), w.hostOut, w.host.out)
    ensures Delivered(w.sent + [f], w.taken, SB_ERROR,
                      w.shellErr + (if f.kind == SB_ERROR then f.payload else []), w.hostErr, w.host.err)
  {
    StreamAppend(w.sent, w.taken, w.host.rx + w.toHost, w.guest.tx, f);
    DeliveredAppend(w.sent, w.taken, SB_OUTPUT, w.shellOut, w.hostOut, w.host.out, f);
    DeliveredAppend(w.sent, w.taken, SB_ERROR, w.shellErr, w.hostErr, w.host.err, f);
  }

  lemma {:induction false} OutboundReadOut(w: World, bytes: seq<byte>)
    requires Outbound(w) && Can(w, GuestStep(GReadOut(bytes)))
    ensures Outbound(Do(w, GuestStep(GReadOut(bytes))))
  {
    OutboundQueues(w, Frame(SB_OUTPUT, bytes));
    SentAppend(w.sent, Frame(SB_OUTPUT, bytes), w.guest.status, false);
  }

  lemma {:induction false} OutboundReadErr(w: World, bytes: seq<byte>)
    requires Outbound(w) && Can(w, GuestStep(GReadErr(bytes)))
    ensures Outbound(Do(w, GuestStep(GReadErr(bytes))))
  {
    OutboundQueues(w, Frame(SB_ERROR, bytes));
    SentAppend(w.sent, Frame(SB_ERROR, bytes), w.guest.status, false);
  }

  lemma {:induction false} OutboundSendExit(w: World)
    requires Outbound(w) && Can(w, GuestStep(GSendExit))
    ensures Outbound(Do(w, GuestStep(GSendExit)))
  {
    ExitFrameRoundTrip(w.guest.status);
    OutboundQueues(w, ExitFrame(w.guest.status));
    SentAppend(w.sent, ExitFrame(w.guest.status), w.guest.status, true);
  }

  lemma {:induction false} HostOtherKeeps(h: Host, a: HostAction)
    requires HostCan(h, a) && |h.tx| <= SB_QUEUE && (h.receivedExit ==> h.ready)
    requires !a.HTake? && !a.HReceive? && !a.HWriteOut? && !a.HWriteErr?
    ensures var h' := HostDo(h, a);
      && h' == h.(tx := h'.tx, eof := h'.eof, connected := h'.connected, result := h'.result, end := h'.end)
      && |h'.tx| <= SB_QUEUE
      && !h'.end.ProtocolError?
      && (h'.end.Drained? ==> HostDrained(h))
      && EndsByExit(h'.end, h.receivedExit, HostDrained(h))
      && (h'.result == h.result || h'.end.Interrupted? || h'.end.OutputFailed?)
  {
  }

  /** The launcher's remaining actions touch neither this stream nor its history. */
  lemma {:induction false} OutboundOtherHost(w: World, a: HostAction)
    requires Outbound(w) && Can(w, HostStep(a))
    requires !a.HTake? && !a.HReceive? && !a.HWriteOut? && !a.HWriteErr?
    ensures Outbound(Do(w, HostStep(a)))
  {
    HostOtherKeeps(w.host, a);
    var w' := Do(w, HostStep(a));
    assert w' == w.(host := w'.host, posted := w'.posted, toGuest := w'.toGuest, hostIn := w'.hostIn);
  }

  lemma {:induction false} GuestAcceptKeeps(g: Guest, f: Frame)
    requires 8 + |f.payload| <= |g.rx| <= SB_QUEUE && |g.input| <= SB_QUEUE
    requires g.end.Serving? && !GuestBlocked(g, f)
    ensures var g' := GuestAccept(g, f);
      && g' == g.(rx := g'.rx, input := g'.input, eof := g'.eof, end := g'.end) && !g'.end.Finished?
      && |g'.rx| <= SB_QUEUE && |g'.input| <= SB_QUEUE
  {
    if f.kind == SB_INPUT && !g.eof {
    } else if f.kind == SB_EOF && |f.payload| == 0 && !g.eof {
    } else if f.kind == SB_WINDOW && |f.payload| == WINSIZE {
    } else {
    }
  }

  lemma {:induction false} OutboundGuestTake(w: World)
    requires Outbound(w) && Can(w, GuestStep(GTake))
    ensures Outbound(Do(w, GuestStep(GTake)))
  {
    if Peek(w.guest.rx).Complete? { GuestAcceptKeeps(w.guest, Peek(w.guest.rx).frame); }
    var w' := Do(w, GuestStep(GTake));
    assert w' == w.(guest := w'.guest, fetched := w'.fetched);
    assert w'.guest == w.guest.(rx := w'.guest.rx, input := w'.guest.input, eof := w'.guest.eof, end := w'.guest.end);
  }

  lemma {:induction false} GuestOtherKeeps(g: Guest, a: GuestAction)
    requires GuestCan(g, a) && |g.rx| <= SB_QUEUE && |g.input| <= SB_QUEUE
    requires !a.GTake? && !a.GFlush? && !a.GReadOut? && !a.GReadErr? && !a.GSendExit?
    ensures var g' := GuestDo(g, a);
      && g' == g.(rx := g'.rx, input := g'.input, exited := g'.exited, status := g'.status, inputOpen := g'.inputOpen,
                  outputOpen := g'.outputOpen, errorsOpen := g'.errorsOpen, end := g'.end)
      && |g'.rx| <= SB_QUEUE && |g'.input| <= SB_QUEUE
  {
    if a.GReceive? {
      assert GuestDo(g, a).input == g.input;
    } else {
      assert GuestDo(g, a).rx == g.rx;
    }
  }

  lemma {:induction false} GuestFlagsAdvance(g: Guest, a: GuestAction)
    requires GuestCan(g, a) && !a.GTake?
    ensures var g' := GuestDo(g, a);
      && (g.exited ==> g'.exited && g'.status == g.status)
      && (g'.outputOpen ==> g.outputOpen) && (g'.errorsOpen ==> g.errorsOpen)
      && (g'.end.Finished? ==> g.sentExit && g.tx == [] && g'.tx == [])
  {
    if a.GReap? {
    } else if a.GFinish? || a.GPowerDown? {
    } else if a.GOutEof? || a.GErrEof? {
    } else {
    }
  }

  lemma {:induction false} OutboundOtherGuest(w: World, a: GuestAction)
    requires Outbound(w) && Can(w, GuestStep(a))
    requires !a.GTake? && !a.GFlush? && !a.GReadOut? && !a.GReadErr? && !a.GSendExit?
    ensures Outbound(Do(w, GuestStep(a)))
  {
    GuestOtherKeeps(w.guest, a);
    GuestFlagsAdvance(w.guest, a);
    var w' := Do(w, GuestStep(a));
    assert w' == w.(guest := w'.guest, toGuest := w'.toGuest, shellIn := w'.shellIn);
  }

  lemma {:induction false} OutboundHost(w: World, a: HostAction)
    requires Outbound(w) && Can(w, HostStep(a))
    ensures Outbound(Do(w, HostStep(a)))
  {
    if a.HTake? { OutboundTake(w); }
    else if a.HReceive? { OutboundReceive(w, a.bytes); }
    else if a.HWriteOut? { OutboundWriteOut(w, a.count); }
    else if a.HWriteErr? { OutboundWriteErr(w, a.count); }
    else { OutboundOtherHost(w, a); }
  }

  lemma {:induction false} OutboundGuest(w: World, a: GuestAction)
    requires Outbound(w) && Can(w, GuestStep(a))
    ensures Outbound(Do(w, GuestStep(a)))
  {
    if a.GTake? { OutboundGuestTake(w); }
    else if a.GFlush? { OutboundFlush(w, a.count); }
    else if a.GReadOut? { OutboundReadOut(w, a.bytes); }
    else if a.GReadErr? { OutboundReadErr(w, a.bytes); }
    else if a.GSendExit? { OutboundSendExit(w); }
    else { OutboundOtherGuest(w, a); }
  }

  // ----- From the launcher's input to the shell -----

  ghost predicate HasEof(fs: seq<Frame>) {
    exists i :: 0 <= i < |fs| && fs[i].kind == SB_EOF
  }

  predicate Postable(f: Frame) {
    || (f.kind == SB_INPUT && |f.payload| <= SB_CHUNK)
    || f == Frame(SB_EOF, [])
    || (f.kind == SB_WINDOW && |f.payload| == WINSIZE)
  }

  /** What the launcher queues: input, window sizes anywhere, and nothing but window sizes after end of file. */
  ghost predicate PostedShape(fs: seq<Frame>) {
    && AllSendable(fs)
    && (forall i :: 0 <= i < |fs| ==> Postable(fs[i]))
    && (forall i, j :: 0 <= i < j < |fs| && fs[i].kind == SB_EOF ==> fs[j].kind == SB_WINDOW)
  }

  /** What one frame means to the shell: input bytes, or on a terminal ^D for end of file. */
  function FrameText(f: Frame, terminal: bool): seq<byte> {
    if f.kind == SB_INPUT then f.payload
    else if f.kind == SB_EOF && terminal then [4]
    else []
  }

  function InputText(fs: seq<Frame>, terminal: bool): seq<byte> {
    if fs == [] then []
    else InputText(fs[..|fs| - 1], terminal) + FrameText(fs[|fs| - 1], terminal)
  }

  /** While the channel is live the stream is whole; afterwards the launcher has cut its unsent tail. */
  ghost predicate CutStream(frames: seq<Frame>, taken: nat, held: seq<byte>, tail: seq<byte>, live: bool) {
    && taken <= |frames|
    && (if live then Stream(frames, taken, held + tail) else held <= EncodeAll(frames[taken..]))
  }

  ghost predicate InputRead(posted: seq<Frame>, read: seq<byte>, live: bool, eof: bool) {
    && Payloads(posted, SB_INPUT) <= read
    && (live || HasEof(posted) ==> Payloads(posted, SB_INPUT) == read)
    && (HasEof(posted) ==> eof)
  }

  ghost predicate InputWritten(text: seq<byte>, written: seq<byte>, queued: seq<byte>, open: bool) {
    if open then written + queued == text else written <= text
  }

  ghost predicate Inbound(w: World) {
    && PostedShape(w.posted)
    && CutStream(w.posted, w.fetched, w.guest.rx + w.toGuest, w.host.tx, Live(w.host))
    && InputRead(w.posted, w.hostIn, Live(w.host), w.host.eof)
    && (w.guest.eof <==> HasEof(w.posted[..w.fetched]))
    && InputWritten(InputText(w.posted[..w.fetched], w.guest.terminal), w.shellIn, w.guest.input, w.guest.inputOpen)
    && !w.guest.end.Rejected?
  }

  lemma {:induction false} InboundStart(terminal: bool)
    ensures Inbound(WorldStart(terminal))
  {
    var w := WorldStart(terminal);
    assert w.guest.rx + w.toGuest + w.host.tx == EncodeAll(w.posted[0..]);
  }

  lemma {:induction false} HasEofAppend(fs: seq<Frame>, f: Frame)
    ensures HasEof(fs + [f]) <==> HasEof(fs) || f.kind == SB_EOF
  {
    var all := fs + [f];
    if HasEof(all) {
      var i :| 0 <= i < |all| && all[i].kind == SB_EOF;
      assert i < |fs| ==> fs[i].kind == SB_EOF;
    }
    if HasEof(fs) {
      var i :| 0 <= i < |fs| && fs[i].kind == SB_EOF;
      assert all[i].kind == SB_EOF;
    }
    assert all[|fs|] == f;
  }

  lemma {:induction false} InputTextAppend(fs: seq<Frame>, f: Frame, terminal: bool)
    ensures InputText(fs + [f], terminal) == InputText(fs, terminal) + FrameText(f, terminal)
  {
  }

  /** The frame init finds is the next one posted, whether or not the stream was cut behind it. */
  lemma {:induction false} CutStreamTake(frames: seq<Frame>, taken: nat, rx: seq<byte>,
                                         flight: seq<byte>, tail: seq<byte>, live: bool)
    requires AllSendable(frames)
    requires CutStream(frames, taken, rx + flight, tail, live)
    ensures !Peek(rx).Invalid?
    ensures Peek(rx).Incomplete? ==> |rx| < 8 + SB_CHUNK
    ensures Peek(rx).Complete? ==>
              && taken < |frames|
              && Peek(rx).frame == frames[taken]
              && CutStream(frames, taken + 1, rx[8 + |frames[taken].payload|..] + flight, tail, live)
  {
    var stream := EncodeAll(frames[taken..]);
    PrefixRest(rx, flight, if live then tail else [], stream);
    var rest := stream[|rx|..];
    StreamTake(frames, taken, rx, rest);
    if Peek(rx).Complete? {
      var after := rx[8 + |frames[taken].payload|..];
      assert live ==> after + flight + tail == after + rest;
      assert !live ==> after + flight <= after + rest;
    }
  }

  lemma {:induction false} PrefixRest(rx: seq<byte>, flight: seq<byte>, tail: seq<byte>, stream: seq<byte>)
    requires rx + flight + tail == stream || (tail == [] && rx + flight <= stream)
    ensures rx <= stream && rx + stream[|rx|..] == stream
    ensures flight <= stream[|rx|..]
    ensures rx + flight + tail == stream ==> stream[|rx|..] == flight + tail
  {
  }

  lemma {:induction false} NoInputAfterEof(posted: seq<Frame>, fetched: nat)
    requires PostedShape(posted) && fetched < |posted| && HasEof(posted[..fetched])
    ensures posted[fetched].kind == SB_WINDOW
  {
  }

  /** What init does with a frame that the launcher can have posted and that is not blocked. */
  lemma {:induction false} GuestAccepts(g: Guest, f: Frame)
    requires 8 + |f.payload| <= |g.rx| && Postable(f) && g.end.Serving?
    requires g.eof ==> f.kind == SB_WINDOW
    ensures var g' := GuestAccept(g, f);
      && g'.rx == g.rx[8 + |f.payload|..] && g'.end.Serving?
      && g'.input == (if g.inputOpen then g.input + FrameText(f, g.terminal) else g.input)
      && (g'.eof <==> g.eof || f.kind == SB_EOF)
      && g'.inputOpen == g.inputOpen && g'.terminal == g.terminal
  {
    assert g.input + [] == g.input;
  }

  lemma {:induction false} InputWrittenMore(posted: seq<Frame>, fetched: nat, terminal: bool, written: seq<byte>,
                                            queued: seq<byte>, open: bool)
    requires fetched < |posted|
    requires InputWritten(InputText(posted[..fetched], terminal), written, queued, open)
    ensures HasEof(posted[..fetched + 1]) <==> HasEof(posted[..fetched]) || posted[fetched].kind == SB_EOF
    ensures InputWritten(InputText(posted[..fetched + 1], terminal), written,
                         if open then queued + FrameText(posted[fetched], terminal) else queued, open)
  {
    var f := posted[fetched];
    assert posted[..fetched + 1] == posted[..fetched] + [f];
    HasEofAppend(posted[..fetched], f);
    InputTextAppend(posted[..fetched], f, terminal);
    var text := FrameText(f, terminal);
    assert written + (queued + text) == written + queued + text;
  }

  lemma {:induction false} InboundTaken(w: World, w': World, f: Frame)
    requires Inbound(w) && w.guest.end.Serving? && w.fetched < |w.posted| && f == w.posted[w.fetched]
    requires 8 + |f.payload| <= |w.guest.rx|
    requires CutStream(w.posted, w.fetched + 1, w.guest.rx[8 + |f.payload|..] + w.toGuest, w.host.tx, Live(w.host))
    requires w' == w.(guest := w'.guest, fetched := w.fetched + 1) && w'.guest == GuestAccept(w.guest, f)
    ensures Inbound(w') && w'.guest.end.Serving?
  {
    if w.guest.eof { NoInputAfterEof(w.posted, w.fetched); }
    GuestAccepts(w.guest, f);
    InputWrittenMore(w.posted, w.fetched, w.guest.terminal, w.shellIn, w.guest.input, w.guest.inputOpen);
  }

  lemma {:induction false} InboundTake(w: World)
    requires Inbound(w) && Can(w, GuestStep(GTake))
    ensures Inbound(Do(w, GuestStep(GTake)))
    ensures Do(w, GuestStep(GTake)).guest.end.Serving?
  {
    CutStreamTake(w.posted, w.fetched, w.guest.rx, w.toGuest, w.host.tx, Live(w.host));
    var f := w.posted[w.fetched];
    InboundTaken(w, w.(guest := GuestAccept(w.guest, f), fetched := w.fetched + 1), f);
    assert GuestDo(w.guest, GTake) == GuestAccept(w.guest, f);
  }

  lemma {:induction false} InboundReceive(w: World, bytes: seq<byte>)
    requires Inbound(w) && Can(w, GuestStep(GReceive(bytes)))
    ensures Inbound(Do(w, GuestStep(GReceive(bytes))))
  {
    assert bytes == w.toGuest[..|bytes|];
    MoveBytes(w.guest.rx, w.toGuest, [], |bytes|);
    assert w.guest.rx + bytes + w.toGuest[|bytes|..] == w.guest.rx + w.toGuest;
  }

  lemma {:induction false} InboundWritten(w: World, w': World, n: nat)
    requires Inbound(w) && w.guest.inputOpen && n <= |w.guest.input|
    requires w' == w.(guest := w.guest.(input := w.guest.input[n..]), shellIn := w.shellIn + w.guest.input[..n])
    ensures Inbound(w')
  {
    assert w.shellIn + w.guest.input[..n] + w.guest.input[n..] == w.shellIn + w.guest.input;
  }

  lemma {:induction false} InboundOtherGuest(w: World, a: GuestAction)
    requires Inbound(w) && Can(w, GuestStep(a))
    requires !a.GTake? && !a.GReceive? && !a.GWriteInput?
    ensures Inbound(Do(w, GuestStep(a)))
  {
    var w' := Do(w, GuestStep(a));
    var g' := w'.guest;
    assert w' == w.(guest := g', toHost := w'.toHost, sent := w'.sent, shellOut := w'.shellOut,
                    shellErr := w'.shellErr);
    assert g'.rx == w.guest.rx && g'.eof == w.guest.eof && g'.terminal == w.guest.terminal;
    assert g'.inputOpen ==> w.guest.inputOpen && g'.input == w.guest.input;
  }

  lemma {:induction false} PostedAppend(posted: seq<Frame>, f: Frame, read: seq<byte>, eof: bool)
    requires PostedShape(posted) && Postable(f) && InputRead(posted, read, true, eof)
    requires f.kind != SB_WINDOW ==> !eof
    ensures PostedShape(posted + [f])
    ensures InputRead(posted + [f], read + (if f.kind == SB_INPUT then f.payload else []), true,
                      eof || f.kind == SB_EOF)
  {
    HasEofAppend(posted, f);
    PayloadsAppend(posted, f, SB_INPUT);
    forall i, j | 0 <= i < j < |posted + [f]| && (posted + [f])[i].kind == SB_EOF
      ensures (posted + [f])[j].kind == SB_WINDOW
    {
      assert HasEof(posted);
    }
  }

  /** Reading input, noting its end and reporting a window size each post one frame. */
  lemma {:induction false} InboundPosts(w: World, a: HostAction, f: Frame, read: seq<byte>)
    requires Inbound(w) && Can(w, HostStep(a))
    requires || (a.HWindow? && f == Frame(SB_WINDOW, a.size) && read == [])
             || (a.HReadInput? && f == Frame(SB_INPUT, a.bytes) && read == a.bytes)
             || (a.HInputEof? && f == Frame(SB_EOF, []) && read == [])
    ensures Inbound(Do(w, HostStep(a)))
  {
    var w' := Do(w, HostStep(a));
    assert w'.hostIn == w.hostIn + read && w'.host.tx == w.host.tx + Encode(f);
    assert Live(w'.host) == Live(w.host) && w'.host.eof == (w.host.eof || a.HInputEof?);
    if Live(w.host) {
      PostedAppend(w.posted, f, w.hostIn, w.host.eof);
      StreamAppend(w.posted, w.fetched, w.guest.rx + w.toGuest, w.host.tx, f);
      assert (w.posted + [f])[..w.fetched] == w.posted[..w.fetched];
    } else {
      assert a.HReadInput? ==> !HasEof(w.posted);
      assert Payloads(w.posted, SB_INPUT) <= w.hostIn + read;
    }
  }

  lemma {:induction false} InboundFlush(w: World, count: nat)
    requires Inbound(w) && Can(w, HostStep(HFlush(count)))
    ensures Inbound(Do(w, HostStep(HFlush(count))))
  {
    MoveBytes(w.toGuest, w.host.tx, w.guest.rx, count);
    assert w.guest.rx + (w.toGuest + w.host.tx[..count]) + w.host.tx[count..] == w.guest.rx + w.toGuest + w.host.tx;
  }

  lemma {:induction false} HostCuts(h: Host, a: HostAction)
    requires HostCan(h, a) && !a.HWindow? && !a.HReadInput? && !a.HInputEof? && !a.HFlush?
    requires HostDo(h, a).receivedExit || !h.receivedExit
    ensures HostDo(h, a).eof == h.eof
    ensures Live(HostDo(h, a)) ==> Live(h) && HostDo(h, a).tx == h.tx
  {
  }

  /** The other launcher actions leave the inbound stream alone, or cut it. */
  lemma {:induction false} InboundOtherHost(w: World, a: HostAction)
    requires Inbound(w) && Can(w, HostStep(a))
    requires !a.HWindow? && !a.HReadInput? && !a.HInputEof? && !a.HFlush?
    requires Do(w, HostStep(a)).host.receivedExit || !w.host.receivedExit
    ensures Inbound(Do(w, HostStep(a)))
  {
    HostCuts(w.host, a);
    var w' := Do(w, HostStep(a));
    assert w' == w.(host := w'.host, taken := w'.taken, toHost := w'.toHost,
                    hostOut := w'.hostOut, hostErr := w'.hostErr);
  }

  lemma {:induction false} InboundHost(w: World, a: HostAction)
    requires Inbound(w) && Outbound(w) && Can(w, HostStep(a))
    ensures Inbound(Do(w, HostStep(a)))
  {
    if a.HWindow? { InboundPosts(w, a, Frame(SB_WINDOW, a.size), []); }
    else if a.HReadInput? { InboundPosts(w, a, Frame(SB_INPUT, a.bytes), a.bytes); }
    else if a.HInputEof? { InboundPosts(w, a, Frame(SB_EOF, []), []); }
    else if a.HFlush? { InboundFlush(w, a.count); }
    else {
      HostKeepsExit(w, a);
      InboundOtherHost(w, a);
    }
  }

  /** Once the exit frame has arrived it stays received; a protocol error could undo it, but there is none. */
  lemma {:induction false} HostKeepsExit(w: World, a: HostAction)
    requires Outbound(w) && Can(w, HostStep(a))
    ensures w.host.receivedExit ==> Do(w, HostStep(a)).host.receivedExit
  {
  }

  lemma {:induction false} InboundGuest(w: World, a: GuestAction)
    requires Inbound(w) && Can(w, GuestStep(a))
    ensures Inbound(Do(w, GuestStep(a)))
  {
    if a.GTake? { InboundTake(w); }
    else if a.GReceive? { InboundReceive(w, a.bytes); }
    else if a.GWriteInput? { InboundWritten(w, Do(w, GuestStep(a)), a.count); }
    else { InboundOtherGuest(w, a); }
  }

  // ----- Both directions -----

  ghost predicate Inv(w: World) {
    Outbound(w) && Inbound(w)
  }

  lemma {:induction false} InvStep(w: World, step: Step)
    requires Inv(w) && Can(w, step)
    ensures Inv(Do(w, step))
  {
    if step.HostStep? {
      OutboundHost(w, step.host);
      InboundHost(w, step.host);
    } else {
      OutboundGuest(w, step.guest);
      InboundGuest(w, step.guest);
    }
  }

  lemma {:induction false} InvSuccessor(w: World, w': World)
    requires Inv(w) && Successor(w, w')
    ensures Inv(w')
  {
    var step :| Can(w, step) && w' == Do(w, step);
    InvStep(w, step);
  }

  lemma {:induction false} InvAlways(run: seq<World>, terminal: bool, i: nat)
    requires IsRun(run, terminal) && i < |run|
    ensures Inv(run[i])
  {
    if i == 0 {
      OutboundStart(terminal);
      InboundStart(terminal);
    } else {
      InvAlways(run, terminal, i - 1);
      assert Successor(run[i - 1], run[i - 1 + 1]);
      InvSuccessor(run[i - 1], run[i]);
    }
  }
}
