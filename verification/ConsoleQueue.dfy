/** The bounded byte queue of the console protocol: a fixed buffer with a live window
    [start, end) that is moved back to the front only when the tail lacks room. */
module ConsoleQueue {
  import opened Bytes
  import opened ConsoleFrames

  lemma {:induction false} HeadWords(s: seq<byte>, head: seq<byte>)
    requires |s| >= 8 && |head| == 8 && forall k :: 0 <= k < 8 ==> head[k] == s[k]
    ensures head[..4] == s[..4] && head[4..8] == s[4..8]
  {
  }

  class Queue {
    var start: nat
    var end: nat
    const data: array<byte>

    ghost predicate Valid()
      reads this, data
    {
      data.Length == SB_QUEUE && start <= end <= SB_QUEUE
    }

    ghost function Contents(): seq<byte>
      requires Valid()
      reads this, data
    {
      data[start..end]
    }

    constructor ()
      ensures Valid() && fresh(data) && Contents() == []
    {
      start, end := 0, 0;
      data := new byte[SB_QUEUE];
    }

    function Size(): (n: nat)
      requires Valid()
      reads this, data
      ensures n == |Contents()|
    {
      end - start
    }

    function Room(): (n: nat)
      requires Valid()
      reads this, data
      ensures n == SB_QUEUE - |Contents()|
    {
      SB_QUEUE - Size()
    }

    method Consume(n: nat)
      requires Valid() && n <= |Contents()|
      modifies this
      ensures Valid() && Contents() == old(Contents())[n..]
    {
      start := start + n;
      if start == end {
        start, end := 0, 0;
      }
    }

    method Reset()
      requires Valid()
      modifies this
      ensures Valid() && Contents() == []
    {
      start, end := 0, 0;
    }

    /** Fails without any change exactly when the bytes do not fit. */
    method Append(bytes: seq<byte>) returns (ok: bool)
      requires Valid()
      modifies this, data
      ensures Valid()
      ensures ok <==> |old(Contents())| + |bytes| <= SB_QUEUE
      ensures Contents() == if ok then old(Contents()) + bytes else old(Contents())
    {
      if Room() < |bytes| {
        return false;
      }
      if SB_QUEUE - end < |bytes| {
        Compact();
      }
      Copy(bytes);
      ok := true;
    }

    /** memcpy behind the live window. */
    method Copy(bytes: seq<byte>)
      requires Valid() && end + |bytes| <= SB_QUEUE
      modifies this`end, data
      ensures Valid() && Contents() == old(Contents()) + bytes
    {
      ghost var before := data[start..end];
      forall i | 0 <= i < |bytes| {
        data[end + i] := bytes[i];
      }
      assert data[start..end] == before;
      assert data[end..end + |bytes|] == bytes;
      assert data[start..end + |bytes|] == data[start..end] + data[end..end + |bytes|];
      end := end + |bytes|;
    }

    /** memmove of the live window to the front of the buffer. */
    method Compact()
      requires Valid()
      modifies this, data
      ensures Valid() && start == 0 && Contents() == old(Contents())
    {
      var n := end - start;
      forall i | 0 <= i < n {
        data[i] := data[start + i];
      }
      start, end := 0, n;
    }

    /** Queues one whole frame or nothing. */
    method Packet(kind: nat, payload: seq<byte>) returns (ok: bool)
      requires Valid() && kind < 0x1_0000_0000
      modifies this, data
      ensures Valid()
      ensures ok <==> |payload| <= SB_CHUNK && |old(Contents())| + 8 + |payload| <= SB_QUEUE
      ensures Contents() == if ok then old(Contents()) + Encode(Frame(kind, payload)) else old(Contents())
    {
      if |payload| > SB_CHUNK || Room() < 8 + |payload| {
        return false;
      }
      var header := Header(kind, |payload|);
      ghost var before := Contents();
      assert (before + header) + payload == before + (header + payload);
      var headed := Append(header);
      assert Contents() == before + header;
      ok := Append(payload);
    }

    /** Reads the header fields in place: 1 a complete frame, 0 incomplete, -1 invalid framing. */
    method PeekFrame() returns (found: int, kind: nat, size: nat)
      requires Valid()
      ensures found == (match Peek(Contents()) case Incomplete => 0 case Invalid => -1 case Complete(_) => 1)
      ensures found == 1 ==>
                && 8 + size <= |Contents()| && size <= SB_CHUNK && kind < 0x1_0000_0000
                && Peek(Contents()).frame == Frame(kind, Contents()[8..8 + size])
    {
      kind, size := 0, 0;
      if Size() < 8 {
        return 0, kind, size;
      }
      var head := data[start..start + 8];
      kind := FromLe(head[..4]);
      size := FromLe(head[4..8]);
      WordSizes();
      LeOfFromLe(head[..4]);
      HeadWords(Contents(), head);
      if size > SB_CHUNK {
        return -1, kind, size;
      }
      if Size() < 8 + size {
        return 0, kind, size;
      }
      found := 1;
    }

    /** The payload of the frame that PeekFrame just reported. */
    method Payload(size: nat) returns (bytes: seq<byte>)
      requires Valid() && 8 + size <= |Contents()|
      ensures bytes == Contents()[8..8 + size]
    {
      var window := data[start..end];
      bytes := window[8..8 + size];
    }
  }
}
