/** The bounded tail of the machine's diagnostics: a ring that keeps the last bytes it was given. */
module LogRing {
  import opened Bytes

  const TAIL: nat := 4096

  function Last(fed: seq<byte>): (s: seq<byte>)
    ensures |s| == if |fed| < TAIL then |fed| else TAIL
  {
    if |fed| <= TAIL then fed else fed[|fed| - TAIL..]
  }

  /** Only the tail of what came before matters to the tail of what follows. */
  lemma {:induction false} LastAppend(fed: seq<byte>, more: seq<byte>)
    ensures Last(fed + more) == Last(Last(fed) + more)
  {
  }

  class Log {
    const data: array<byte>
    var length: nat
    var next: nat
    /** Everything given so far. */
    ghost var fed: seq<byte>

    ghost predicate Shape()
      reads this
    {
      data.Length == TAIL && length <= TAIL && next < TAIL && (length < TAIL ==> next == length)
    }

    /** The ring read from its oldest byte on. */
    ghost function Contents(): seq<byte>
      reads this, data
      requires Shape()
    {
      Unrolled(data[..], next, length)
    }

    ghost predicate Valid()
      reads this, data
    {
      Shape() && Contents() == Last(fed)
    }

    constructor ()
      ensures Valid() && fed == [] && fresh(data)
    {
      data := new byte[TAIL];
      length, next, fed := 0, 0, [];
      new;
      assert data[..0] == [];
    }

    /** memcpy into the ring, up to its end. */
    method Copy(at: nat, bytes: seq<byte>)
      requires at + |bytes| <= data.Length
      modifies data
      ensures data[..] == old(data[..])[..at] + bytes + old(data[..])[at + |bytes|..]
    {
      var i := 0;
      while i < |bytes|
        invariant 0 <= i <= |bytes|
        invariant forall k :: 0 <= k < data.Length ==>
                    data[k] == if at <= k < at + i then bytes[k - at] else old(data[k])
      {
        data[at + i] := bytes[i];
        i := i + 1;
      }
    }

    /** One turn of log_keep's loop: a piece that ends at the ring's end at the latest. */
    method Piece(bytes: seq<byte>)
      requires Valid() && next + |bytes| <= TAIL && 0 < |bytes| < TAIL
      modifies this, data
      ensures Valid() && fed == old(fed) + bytes
    {
      LastAppend(fed, bytes);
      Overwrite(bytes);
      fed := fed + bytes;
    }

    method Overwrite(bytes: seq<byte>)
      requires Shape() && next + |bytes| <= TAIL && 0 < |bytes| < TAIL
      modifies this`length, this`next, data
      ensures Shape() && Contents() == Last(old(Contents()) + bytes)
    {
      Rotated(data[..], next, length, bytes);
      Copy(next, bytes);
      next := (next + |bytes|) % TAIL;
      length := if length + |bytes| > TAIL then TAIL else length + |bytes|;
    }

    /** A chunk that fills the ring by itself. */
    method Replace(bytes: seq<byte>)
      requires Valid() && |bytes| >= TAIL
      modifies this, data
      ensures Valid() && fed == old(fed) + bytes
    {
      var tail := bytes[|bytes| - TAIL..];
      Copy(0, tail);
      assert data[..] == tail;
      length, next, fed := TAIL, 0, fed + bytes;
      assert tail[0..] + tail[..0] == tail;
      assert Last(fed) == tail;
    }

    /** log_keep */
    method Keep(bytes: seq<byte>)
      requires Valid()
      modifies this, data
      ensures Valid() && fed == old(fed) + bytes
    {
      if |bytes| >= TAIL {
        Replace(bytes);
        return;
      }
      var i := 0;
      assert fed + bytes[..0] == fed;
      while i < |bytes|
        invariant 0 <= i <= |bytes|
        invariant Valid() && fed == old(fed) + bytes[..i]
      {
        var n := if TAIL - next < |bytes| - i then TAIL - next else |bytes| - i;
        assert bytes[..i + n] == bytes[..i] + bytes[i..i + n];
        Piece(bytes[i..i + n]);
        i := i + n;
      }
      assert bytes[..i] == bytes;
    }

    /** log_print: the last TAIL bytes of everything given, in order, or all of it if there is less. */
    method Print() returns (shown: seq<byte>)
      requires Valid()
      ensures shown == Last(fed)
    {
      ghost var ring := data[..];
      assert data[..length] == ring[..length] && data[next..TAIL] == ring[next..] && data[..next] == ring[..next];
      if length < TAIL {
        shown := data[..length];
      } else {
        shown := data[next..TAIL];
        shown := shown + data[..next];
      }
    }
  }

  /** The ring as a sequence: ring, oldest byte at `next` once it is full. */
  function Unrolled(ring: seq<byte>, next: nat, length: nat): seq<byte>
    requires |ring| == TAIL && next <= TAIL && length <= TAIL
  {
    if length < TAIL then ring[..length] else ring[next..] + ring[..next]
  }

  /** Overwriting the oldest bytes in place drops them and appends the new ones. */
  lemma {:induction false} Rotated(ring: seq<byte>, next: nat, length: nat, bytes: seq<byte>)
    requires |ring| == TAIL && next < TAIL && length <= TAIL && (length < TAIL ==> next == length)
    requires 0 < |bytes| < TAIL && next + |bytes| <= TAIL
    ensures var ring' := ring[..next] + bytes + ring[next + |bytes|..];
            var length' := if length + |bytes| > TAIL then TAIL else length + |bytes|;
            Unrolled(ring', (next + |bytes|) % TAIL, length') == Last(Unrolled(ring, next, length) + bytes)
  {
    var ring' := ring[..next] + bytes + ring[next + |bytes|..];
    var n := next + |bytes|;
    var all := Unrolled(ring, next, length) + bytes;
    Wrapped(ring', n);
    if length == TAIL {
      Shifted(ring, next, bytes);
    } else if n == TAIL {
      assert ring'[n..] + ring'[..n] == all;
    } else {
      assert ring'[..n] == all;
    }
  }

  lemma {:induction false} Wrapped(ring: seq<byte>, n: nat)
    requires |ring| == TAIL && 0 < n <= TAIL
    ensures ring[n % TAIL..] + ring[..n % TAIL] == ring[n..] + ring[..n]
  {
  }

  lemma {:induction false} Shifted(ring: seq<byte>, next: nat, bytes: seq<byte>)
    requires |ring| == TAIL && next < TAIL && 0 < |bytes| && next + |bytes| <= TAIL
    ensures var ring' := ring[..next] + bytes + ring[next + |bytes|..]; var n := next + |bytes|;
            ring'[n..] + ring'[..n] == Last(ring[next..] + ring[..next] + bytes)
  {
  }
}
