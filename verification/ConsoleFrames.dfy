/** Length-prefixed console frames: an 8-byte header (kind, size) and at most SB_CHUNK bytes of payload. */
module ConsoleFrames {
  import opened Bytes

  const SB_INPUT: nat := 1
  const SB_OUTPUT: nat := 2
  const SB_ERROR: nat := 3
  const SB_EOF: nat := 4
  const SB_EXIT: nat := 5
  const SB_WINDOW: nat := 6
  const SB_READY: nat := 7
  const SB_CHUNK: nat := 8192
  const SB_QUEUE: nat := 131072
  /** sizeof(struct winsize) */
  const WINSIZE: nat := 8

  datatype Frame = Frame(kind: nat, payload: seq<byte>)

  predicate Sendable(f: Frame) {
    f.kind < 0x1_0000_0000 && |f.payload| <= SB_CHUNK
  }

  ghost predicate AllSendable(fs: seq<Frame>) {
    forall i :: 0 <= i < |fs| ==> Sendable(fs[i])
  }

  function Header(kind: nat, size: nat): (h: seq<byte>)
    ensures |h| == 8
  {
    Le(kind, 4) + Le(size, 4)
  }

  function Encode(f: Frame): seq<byte> {
    Header(f.kind, |f.payload|) + f.payload
  }

  function EncodeAll(fs: seq<Frame>): seq<byte> {
    if fs == [] then [] else Encode(fs[0]) + EncodeAll(fs[1..])
  }

  datatype Peeked = Incomplete | Invalid | Complete(frame: Frame)

  /** What a reader finds at the head of a byte stream. */
  function Peek(s: seq<byte>): (found: Peeked)
    ensures found.Complete? ==> |found.frame.payload| <= SB_CHUNK && 8 + |found.frame.payload| <= |s|
  {
    if |s| < 8 then Incomplete
    else
      var size := FromLe(s[4..8]);
      if size > SB_CHUNK then Invalid
      else if |s| < 8 + size then Incomplete
      else Complete(Frame(FromLe(s[..4]), s[8..8 + size]))
  }

  /** The concatenated payloads of one kind. */
  function Payloads(fs: seq<Frame>, kind: nat): seq<byte> {
    if fs == [] then []
    else (if fs[0].kind == kind then fs[0].payload else []) + Payloads(fs[1..], kind)
  }

  lemma {:induction false} EncodeAllAppend(fs: seq<Frame>, f: Frame)
    ensures EncodeAll(fs + [f]) == EncodeAll(fs) + Encode(f)
  {
    if fs == [] {
      assert fs + [f] == [f];
      assert EncodeAll([f]) == Encode(f) + EncodeAll([f][1..]);
    } else {
      EncodeAllAppend(fs[1..], f);
      var all := fs + [f];
      var head, rest := Encode(fs[0]), EncodeAll(fs[1..]);
      assert all[0] == fs[0] && all[1..] == fs[1..] + [f];
      assert EncodeAll(all) == head + (rest + Encode(f));
      assert head + (rest + Encode(f)) == (head + rest) + Encode(f);
    }
  }

  lemma {:induction false} PayloadsAppend(fs: seq<Frame>, f: Frame, kind: nat)
    ensures Payloads(fs + [f], kind) == Payloads(fs, kind) + (if f.kind == kind then f.payload else [])
  {
    if fs == [] {
      assert fs + [f] == [f];
      assert [f][1..] == [];
      assert Payloads([f], kind) == (if f.kind == kind then f.payload else []) + Payloads([f][1..], kind);
    } else {
      PayloadsAppend(fs[1..], f, kind);
      assert (fs + [f])[1..] == fs[1..] + [f];
    }
  }

  lemma {:induction false} PayloadsConcat(a: seq<Frame>, b: seq<Frame>, kind: nat)
    ensures Payloads(a + b, kind) == Payloads(a, kind) + Payloads(b, kind)
    decreases |b|
  {
    if b == [] {
      assert a + b == a;
    } else {
      PayloadsAppend(a, b[0], kind);
      PayloadsConcat(a + [b[0]], b[1..], kind);
      assert a + b == (a + [b[0]]) + b[1..];
    }
  }

  /** A reader holding any prefix of a correctly framed stream never sees invalid framing,
      and when it sees a frame it is the first one sent, byte for byte. */
  lemma {:induction false} PeekFindsFirstFrame(fs: seq<Frame>, held: seq<byte>, rest: seq<byte>)
    requires AllSendable(fs)
    requires held + rest == EncodeAll(fs)
    ensures Peek(held) != Invalid
    ensures Peek(held).Incomplete? ==> |held| < 8 + SB_CHUNK
    ensures Peek(held).Complete? <==> fs != [] && |held| >= |Encode(fs[0])|
    ensures Peek(held).Complete? ==>
              && Peek(held).frame == fs[0]
              && held[8 + |fs[0].payload|..] + rest == EncodeAll(fs[1..])
  {
    if fs != [] {
      var f := fs[0];
      var all := held + rest;
      assert all == Encode(f) + EncodeAll(fs[1..]);
      WordSizes();
      FromLeOfLe(f.kind, 4);
      FromLeOfLe(|f.payload|, 4);
      if |held| >= 8 {
        assert held[..4] == all[..4] == Le(f.kind, 4);
        assert held[4..8] == all[4..8] == Le(|f.payload|, 4);
        if |held| >= 8 + |f.payload| {
          assert held[8..8 + |f.payload|] == all[8..8 + |f.payload|] == f.payload;
          assert held[8 + |f.payload|..] + rest == all[8 + |f.payload|..] == EncodeAll(fs[1..]);
        }
      }
    }
  }

  /** A framed stream determines its frames. */
  lemma {:induction false} EncodeAllInjective(a: seq<Frame>, b: seq<Frame>)
    requires AllSendable(a) && AllSendable(b)
    requires EncodeAll(a) == EncodeAll(b)
    ensures a == b
    decreases |a|
  {
    var s := EncodeAll(a);
    assert s + [] == s;
    PeekFindsFirstFrame(a, s, []);
    PeekFindsFirstFrame(b, s, []);
    if a != [] {
      assert a[0] == b[0];
      EncodeAllInjective(a[1..], b[1..]);
      assert a == [a[0]] + a[1..];
      assert b == [b[0]] + b[1..];
    }
  }
}
