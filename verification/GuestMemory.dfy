/** The guest's mmap family: a singly linked list of mapping records edited in place, whose
    pieces share reference-counted allocations. */
module GuestMemory {
  import opened PageRanges
  import opened Bytes
  import opened Common

  class Mapping {
    var next: Mapping?
    var base: nat
    var size: nat
    var allocation: Allocation

    constructor (next: Mapping?, base: nat, size: nat, allocation: Allocation)
      ensures this.next == next && this.base == base && this.size == size && this.allocation == allocation
    {
      this.next, this.base, this.size, this.allocation := next, base, size, allocation;
    }
  }

  function Without<T>(s: seq<T>, i: nat): (r: seq<T>)
    requires i < |s|
    ensures |r| == |s| - 1
    ensures forall j {:trigger r[j]} :: 0 <= j < |r| ==> r[j] == if j < i then s[j] else s[j + 1]
  {
    s[..i] + s[i + 1..]
  }

  function Inserted<T>(s: seq<T>, i: nat, x: T): (r: seq<T>)
    requires i <= |s|
    ensures |r| == |s| + 1
    ensures forall j {:trigger r[j]} :: 0 <= j < |r| ==> r[j] == if j < i then s[j] else if j == i then x else s[j - 1]
  {
    s[..i] + [x] + s[i..]
  }

  /** The records form a null-terminated list from head. */
  ghost predicate Linked(head: Mapping?, spine: seq<Mapping>)
    reads spine
  {
    && head == (if spine == [] then null else spine[0])
    && forall i {:trigger spine[i].next} :: 0 <= i < |spine| ==>
         spine[i].next == if i + 1 < |spine| then spine[i + 1] else null
  }

  /** The records, all from a given set, hold these pieces. */
  ghost predicate Holds(spine: seq<Mapping>, pieces: seq<Piece>, records: set<Mapping>)
    reads spine
  {
    && |spine| == |pieces|
    && forall i :: 0 <= i < |spine| ==>
         && spine[i] in records
         && Piece(spine[i].base, spine[i].size, spine[i].allocation) == pieces[i]
  }

  /** A null-terminated list has no cycle, so no record is on it twice. */
  lemma {:induction false} EachOnce(head: Mapping?, spine: seq<Mapping>, i: nat)
    requires Linked(head, spine) && i < |spine|
    ensures forall j :: 0 <= j < |spine| && j != i ==> spine[j] != spine[i]
  {
    forall j | 0 <= j < |spine| && j != i
      ensures spine[j] != spine[i]
    {
      if j < i { NotTwice(head, spine, j, i); } else { NotTwice(head, spine, i, j); }
    }
  }

  lemma {:induction false} NotTwice(head: Mapping?, spine: seq<Mapping>, i: nat, j: nat)
    requires Linked(head, spine) && i < j < |spine|
    ensures spine[i] != spine[j]
    decreases |spine| - j
  {
    assert spine[i].next == spine[i + 1];
    if j + 1 < |spine| {
      NotTwice(head, spine, i + 1, j + 1);
    }
  }

  function Lookup(references: map<Allocation, nat>, a: Allocation): nat {
    if a in references then references[a] else 0
  }

  /** The live allocations are those that some piece shares, each counted once per piece. */
  ghost predicate Counted(pieces: seq<Piece>, references: map<Allocation, nat>) {
    && (forall a {:trigger Count(pieces, a)} :: Count(pieces, a) == Lookup(references, a))
    && (forall a {:trigger references[a]} :: a in references ==> references[a] > 0)
  }

  /** The pointer behind previous leads to spine[i], or to the end of the list. */
  ghost predicate Behind(spine: seq<Mapping>, previous: Mapping?, i: nat) {
    i <= |spine| && previous == if i == 0 then null else spine[i - 1]
  }

  ghost predicate At(spine: seq<Mapping>, previous: Mapping?, item: Mapping?, i: nat) {
    Behind(spine, previous, i) && item == if i < |spine| then spine[i] else null
  }

  /** Where munmap's loop stands at piece i, having started from ps. If it is going to be stuck
      at piece k for want of a record, nothing has changed yet. */
  ghost predicate Underway(now: seq<Piece>, ps: seq<Piece>, i: nat, start: nat, end: nat,
                           splitFails: bool, stuck: bool, k: nat) {
    && i <= |now| && Outcome(now, i, start, end) == CutAll(ps, start, end)
    && (stuck ==> splitFails && now == ps && i <= k && OnlyTouches(ps, k, start, end))
    && (splitFails && !stuck ==> NoneSplits(now, i, start, end))
  }

  lemma {:induction false} OneTurn(now: seq<Piece>, ps: seq<Piece>, i: nat, start: nat, end: nat,
                                   splitFails: bool, stuck: bool, k: nat)
    requires Underway(now, ps, i, start, end, splitFails, stuck, k) && i < |now|
    ensures splitFails && Splits(now[i], start, end) ==> stuck
    ensures !(splitFails && Splits(now[i], start, end)) ==>
              var qs := Cut(now[i], start, end); var next := Spliced(now, i, qs);
              Underway(next, ps, i + |qs|, start, end, splitFails, stuck, k) && |next| - (i + |qs|) < |now| - i
  {
    var qs := Cut(now[i], start, end);
    CutOne(now, i, start, end);
    if stuck {
      assert Spliced(now, i, [now[i]]) == now;
    } else if splitFails {
      NoneSplitsOn(now, i, qs, start, end);
    }
  }

  datatype Errno = EINVAL | ENOTSUP | ENOMEM | EFAULT | Io(code: int)

  datatype Status = Done | Error(error: Errno)

  datatype Reply = Placed(address: nat) | Failed(error: Errno)

  type word = x: int | 0 <= x < WORD

  /** What munmap rejects before it looks at the list. */
  predicate UnmapRefused(address: word, length: word) {
    length == 0 || address % PAGE != 0 || length > SIZE_MAX - (PAGE - 1) || PageRound(length) > SIZE_MAX - address
  }

  lemma {:induction false} RangeAligned(address: word, length: word)
    requires !UnmapRefused(address, length)
    ensures address % PAGE == 0 && (address + PageRound(length)) % PAGE == 0 && 0 < PageRound(length)
  {
    PageRoundExact(length);
  }

  ghost function UnmapStatus(ps: seq<Piece>, address: word, length: word, splitFails: bool): Status {
    if UnmapRefused(address, length) then Error(EINVAL)
    else if splitFails && NeedsSplit(ps, address, address + PageRound(length)) then Error(ENOMEM)
    else Done
  }

  /** One pread: interrupted, failed, or short. A count outside 1..available stands for a full read. */
  datatype Read = Interrupted | Broken(code: int) | Short(count: nat)

  datatype File = File(content: seq<byte>, calls: seq<Read>)

  /** How much of a request for want bytes at position the file can give. */
  function Available(content: seq<byte>, position: nat, want: nat): (n: nat)
    ensures n <= want && (position + n <= |content| || n == 0)
  {
    if position >= |content| then 0 else if want <= |content| - position then want else |content| - position
  }

  function Got(content: seq<byte>, position: nat, want: nat, read: Read): (n: nat)
    ensures n <= Available(content, position, want)
    ensures n == 0 <==> Available(content, position, want) == 0
  {
    var all := Available(content, position, want);
    if read.Short? && 0 < read.count <= all then read.count else all
  }

  /** The error that ends the read loop, if one is met before the data is complete. */
  function FirstError(content: seq<byte>, calls: seq<Read>, offset: nat, done: nat, length: nat): Status
    requires done <= length
  {
    if done == length || calls == [] then Done
    else if calls[0].Interrupted? then FirstError(content, calls[1..], offset, done, length)
    else if calls[0].Broken? then Error(Io(calls[0].code))
    else
      var n := Got(content, offset + done, length - done, calls[0]);
      if n == 0 then Done else FirstError(content, calls[1..], offset, done + n, length)
  }

  /** memory with data stored from an address on. */
  function Write(memory: seq<byte>, at: nat, data: seq<byte>): (r: seq<byte>)
    requires at + |data| <= |memory|
    ensures |r| == |memory|
    ensures forall x {:trigger r[x]} :: 0 <= x < |r| ==>
              r[x] == if at <= x < at + |data| then data[x - at] else memory[x]
  {
    memory[..at] + data + memory[at + |data|..]
  }

  ghost predicate SameOutside(before: seq<byte>, after: seq<byte>, base: nat, limit: nat) {
    |before| == |after| && forall x :: 0 <= x < |before| && !(base <= x < limit) ==> before[x] == after[x]
  }

  /** The bytes that a complete read of length bytes at offset delivers. */
  function Taken(content: seq<byte>, offset: nat, length: nat): (r: seq<byte>)
    ensures |r| == Available(content, offset, length)
  {
    var n := Available(content, offset, length);
    if n == 0 then [] else content[offset..offset + n]
  }

  lemma {:induction false} WriteOn(memory: seq<byte>, base: nat, content: seq<byte>, offset: nat, done: nat, n: nat)
    requires 0 < n && offset + done + n <= |content| && base + done + n <= |memory|
    ensures Write(Write(memory, base, Taken(content, offset, done)), base + done,
                  content[offset + done..offset + done + n])
            == Write(memory, base, Taken(content, offset, done + n))
  {
  }

  datatype Request = Request(length: word, fixed: bool, shared: bool, executable: bool, anonymous: bool, offset: int)

  predicate MmapInvalid(request: Request) {
    request.length == 0 || request.length > SIZE_MAX - (2 * PAGE - 2)
    || request.offset < 0 || request.offset % PAGE != 0
  }

  /** What mmap answers, the checks in order. */
  function MmapReply(request: Request, file: File, block: Option<nat>): Reply {
    if MmapInvalid(request) then Failed(EINVAL)
    else if request.fixed || request.shared || request.executable then Failed(ENOTSUP)
    else if block.None? then Failed(ENOMEM)
    else
      var s := if request.anonymous then Done
               else FirstError(file.content, file.calls, request.offset, 0, request.length);
      if s.Error? then Failed(s.error) else Placed(PageFloor(block.value + PAGE - 1))
  }

  /** The contents of a new mapping: the file, if there is one, then zeros up to the page end. */
  function Shown(request: Request, file: File): (r: seq<byte>)
    ensures !MmapInvalid(request) ==> |r| == PageRound(request.length)
  {
    var data := if request.anonymous || request.offset < 0 then []
                else Taken(file.content, request.offset, request.length);
    var size := PageRound(request.length);
    if !MmapInvalid(request) then (PageRoundExact(request.length); data + Zeros(size - |data|)) else []
  }

  /** What malloc promises of a block of that many bytes: it is apart from every live one. */
  predicate Malloced(references: map<Allocation, nat>, address: nat, bytes: nat) {
    && address > 0 && address + bytes < WORD
    && forall a :: a in references ==> a.memory + a.bytes <= address || address + bytes <= a.memory
  }

  /** Of every block handed out that often, all but the live one have been handed back, each once. */
  ghost predicate Balanced(made: multiset<Allocation>, freed: multiset<Allocation>, references: map<Allocation, nat>) {
    forall a {:trigger made[a]} {:trigger freed[a]} :: made[a] == freed[a] + if a in references then 1 else 0
  }

  /** A call of the guest's; block is the address that malloc answers with, if it can. */
  datatype Call =
    | CallMmap(request: Request, file: File, block: Option<nat>)
    | CallMunmap(address: word, length: word, splitFails: bool)
    | CallMremap(address: word, oldSize: word, newSize: word, mayMove: bool,
                 otherFlags: bool, block: Option<nat>, splitFails: bool)
    | CallMincore(address: word, length: word)

  class Mapper {
    var mappings: Mapping?
    /** The reference counts of the allocations that have not been freed. */
    var references: map<Allocation, nat>
    /** Contents of the arena, by address. */
    var memory: seq<byte>
    /** The records of the list in order, what they hold, and every record made so far. */
    ghost var spine: seq<Mapping>
    ghost var pieces: seq<Piece>
    ghost var records: set<Mapping>
    /** Every block that malloc handed out and that free took back. */
    ghost var made: multiset<Allocation>
    ghost var freed: multiset<Allocation>

    ghost predicate ListKept()
      reads this, spine
    {
      Linked(mappings, spine) && Holds(spine, pieces, records)
    }

    /** The list and the reference counts agree with the pieces. */
    ghost predicate Kept()
      reads this, spine
    {
      ListKept() && Counted(pieces, references) && Balanced(made, freed, references)
    }

    ghost predicate Valid()
      reads this, spine
    {
      Kept() && AllOk(pieces) && AllApart(pieces) && |memory| == WORD
    }

    constructor ()
      ensures Valid() && pieces == [] && records == {}
    {
      mappings := null;
      references := map[];
      memory := Zeros(WORD);
      spine, pieces, records := [], [], {};
      made, freed := multiset{}, multiset{};
    }

    // ----- Reference counts -----

    /** Drops one reference and frees the block with the last one. */
    method Release(a: Allocation)
      requires a in references && references[a] > 0
      modifies this`references, this`freed
      ensures references == if old(references)[a] == 1 then old(references) - {a}
                            else old(references)[a := old(references)[a] - 1]
      ensures freed == if old(references)[a] == 1 then old(freed) + multiset{a} else old(freed)
    {
      references := references[a := references[a] - 1];
      if references[a] == 0 {
        references := references - {a};
        freed := freed + multiset{a};
      }
    }

    /** Releases the reference that piece i held. */
    method DropReference(a: Allocation, ghost before: seq<Piece>, ghost i: nat)
      requires Counted(before, references) && Balanced(made, freed, references) && i < |before| && before[i].owner == a
      modifies this`references, this`freed
      ensures Counted(Without(before, i), references) && Balanced(made, freed, references)
    {
      ghost var after := Without(before, i);
      assert after == Spliced(before, i, []);
      forall b
        ensures Count(after, b) == Count(before, b) - if b == a then 1 else 0
      {
        CountReplaced(before, i, [], b);
      }
      CountMember(before, i);
      Release(a);
    }

    /** Adds the reference of a second piece of the same block. */
    method AddReference(a: Allocation, ghost before: seq<Piece>, ghost i: nat, ghost tail: Piece)
      requires Counted(before, references) && i < |before| && before[i].owner == a && tail.owner == a
      modifies this`references
      ensures Counted(Inserted(before, i + 1, tail), references) && references.Keys == old(references.Keys)
    {
      ghost var after := Inserted(before, i + 1, tail);
      assert after == Spliced(before, i, [before[i], tail]);
      forall b
        ensures Count(after, b) == Count(before, b) + if b == a then 1 else 0
      {
        CountReplaced(before, i, [before[i], tail], b);
        assert [before[i], tail] == [before[i]] + [tail];
        CountConcat([before[i]], [tail], b);
        CountOne(before[i], b);
        CountOne(tail, b);
      }
      CountMember(before, i);
      references := references[a := references[a] + 1];
    }

    // ----- List surgery -----

    /** Unlinks spine[i], whose predecessor is previous (null for the list head). */
    method Unlink(previous: Mapping?, item: Mapping, ghost i: nat)
      requires ListKept() && i < |spine| && item == spine[i] && Behind(spine, previous, i)
      modifies this`mappings, this`spine, this`pieces, (if previous == null then {} else {previous})`next
      ensures ListKept() && spine == Without(old(spine), i) && pieces == Without(old(pieces), i)
    {
      EachOnce(mappings, spine, if i == 0 then 0 else i - 1);
      if previous == null {
        mappings := item.next;
      } else {
        previous.next := item.next;
      }
      spine, pieces := Without(spine, i), Without(pieces, i);
    }

    /** Inserts a new record behind spine[i]. */
    method LinkAfter(item: Mapping, base: nat, size: nat, ghost i: nat) returns (tail: Mapping)
      requires ListKept() && i < |spine| && item == spine[i]
      modifies item`next, this`spine, this`pieces, this`records
      ensures ListKept() && fresh(tail) && records == old(records) + {tail}
      ensures spine == Inserted(old(spine), i + 1, tail)
      ensures pieces == Inserted(old(pieces), i + 1, Piece(base, size, item.allocation))
    {
      tail := new Mapping(item.next, base, size, item.allocation);
      EachOnce(mappings, spine, i);
      item.next := tail;
      records := records + {tail};
      spine := Inserted(spine, i + 1, tail);
      pieces := Inserted(pieces, i + 1, Piece(base, size, item.allocation));
    }

    /** Changes the range that spine[i] records. */
    method Reshape(item: Mapping, base: nat, size: nat, ghost i: nat)
      requires ListKept() && i < |spine| && item == spine[i]
      modifies item`base, item`size, this`pieces
      ensures ListKept() && pieces == old(pieces)[i := Piece(base, size, item.allocation)]
    {
      EachOnce(mappings, spine, i);
      item.base, item.size := base, size;
      pieces := pieces[i := Piece(base, size, item.allocation)];
    }

    // ----- Both together -----

    /** Removes a whole mapping and drops its reference. */
    method Remove(previous: Mapping?, item: Mapping, ghost i: nat)
      requires Kept() && i < |spine| && item == spine[i] && Behind(spine, previous, i)
      modifies this`mappings, this`spine, this`pieces, (if previous == null then {} else {previous})`next,
               this`references, this`freed
      ensures Kept() && spine == Without(old(spine), i) && pieces == Without(old(pieces), i)
    {
      ghost var before := pieces;
      Unlink(previous, item, i);
      DropReference(item.allocation, before, i);
    }

    /** Shrinks spine[i] to a part of itself. */
    method Trim(item: Mapping, base: nat, size: nat, ghost i: nat)
      requires Kept() && i < |spine| && item == spine[i]
      modifies item`base, item`size, this`pieces
      ensures Kept() && pieces == old(pieces)[i := Piece(base, size, item.allocation)]
    {
      CountsByOwner(pieces, i, Piece(base, size, item.allocation), references);
      Reshape(item, base, size, i);
    }

    /** Links a record for another piece of spine[i]'s block behind it. */
    method AddTail(item: Mapping, base: nat, size: nat, ghost i: nat) returns (tail: Mapping)
      requires Kept() && i < |spine| && item == spine[i]
      modifies item`next, this`spine, this`pieces, this`records, this`references
      ensures Kept() && fresh(tail) && records == old(records) + {tail}
      ensures spine == Inserted(old(spine), i + 1, tail)
      ensures pieces == Inserted(old(pieces), i + 1, Piece(base, size, item.allocation))
    {
      ghost var before := pieces;
      tail := LinkAfter(item, base, size, i);
      AddReference(item.allocation, before, i, Piece(base, size, item.allocation));
    }

    // The edits of munmap's loop. Each replaces piece i by what Cut leaves of it, and returns the
    // record behind which the loop goes on.

    /** Removes spine[i], which start..end covers. */
    method CutWhole(previous: Mapping?, item: Mapping, start: nat, end: nat, ghost i: nat) returns (last: Mapping?)
      requires Kept() && i < |spine| && item == spine[i] && Behind(spine, previous, i)
      requires start <= pieces[i].base < end && start < pieces[i].Limit() <= end
      modifies this`mappings, this`spine, this`pieces, (if previous == null then {} else {previous})`next,
               this`references, this`freed
      ensures Kept() && pieces == Spliced(old(pieces), i, Cut(old(pieces)[i], start, end))
      ensures Behind(spine, last, i + |Cut(old(pieces)[i], start, end)|)
    {
      assert Cut(pieces[i], start, end) == [];
      assert Without(pieces, i) == Spliced(pieces, i, []);
      Remove(previous, item, i);
      last := previous;
    }

    /** Splits spine[i] around start..end with a new record for its tail. */
    method CutMiddle(item: Mapping, start: nat, end: nat, ghost i: nat) returns (last: Mapping?)
      requires Kept() && i < |spine| && item == spine[i] && Splits(pieces[i], start, end) && start < end
      modifies item`next, item`base, item`size, this`spine, this`pieces, this`records, this`references
      ensures Kept() && pieces == Spliced(old(pieces), i, Cut(old(pieces)[i], start, end))
      ensures Behind(spine, last, i + |Cut(old(pieces)[i], start, end)|) && fresh(records - old(records))
    {
      var base, limit := item.base, item.base + item.size;
      MiddleIs(pieces, i, start, end);
      last := AddTail(item, end, limit - end, i);
      Trim(item, base, start - base, i);
    }

    /** Trims spine[i], which start..end overlaps at exactly one end. */
    method CutEnd(item: Mapping, start: nat, end: nat, ghost i: nat) returns (last: Mapping?)
      requires Kept() && i < |spine| && item == spine[i] && start < end
      requires var p := pieces[i]; p.base < end && start < p.Limit() && (start <= p.base <==> end < p.Limit())
      modifies item`base, item`size, this`pieces
      ensures Kept() && pieces == Spliced(old(pieces), i, Cut(old(pieces)[i], start, end))
      ensures Behind(spine, last, i + |Cut(old(pieces)[i], start, end)|)
    {
      var base, limit := item.base, item.base + item.size;
      ghost var part := if start <= base then Piece(end, limit - end, item.allocation)
                        else Piece(base, start - base, item.allocation);
      assert Cut(pieces[i], start, end) == [part];
      assert pieces[i := part] == Spliced(pieces, i, [part]);
      if start <= base {
        Trim(item, end, limit - end, i);
      } else {
        Trim(item, base, start - base, i);
      }
      last := item;
    }

    /** One turn of the loop. */
    method Turn(previous: Mapping?, item: Mapping, start: nat, end: nat, splitFails: bool, ghost i: nat)
      returns (ok: bool, last: Mapping?)
      requires Kept() && i < |spine| && item == spine[i] && Behind(spine, previous, i)
      requires start < end
      modifies this`mappings, this`spine, this`pieces, this`records, records, this`references, this`freed
      ensures Kept() && fresh(records - old(records))
      ensures ok <==> !(splitFails && Splits(old(pieces)[i], start, end))
      ensures !ok ==> pieces == old(pieces)
      ensures ok ==>
        && pieces == Spliced(old(pieces), i, Cut(old(pieces)[i], start, end))
        && Behind(spine, last, i + |Cut(old(pieces)[i], start, end)|)
    {
      var base, limit := item.base, item.base + item.size;
      ok, last := true, item;
      if end <= base || start >= limit {
        assert Spliced(pieces, i, [pieces[i]]) == pieces;
      } else if start <= base && end >= limit {
        last := CutWhole(previous, item, start, end, i);
      } else if start > base && end < limit {
        ok := !splitFails;
        if ok {
          last := CutMiddle(item, start, end, i);
        }
      } else {
        last := CutEnd(item, start, end, i);
      }
    }

    method Following(previous: Mapping?, ghost i: nat) returns (item: Mapping?)
      requires Linked(mappings, spine) && Behind(spine, previous, i)
      ensures At(spine, previous, item, i)
    {
      item := if previous == null then mappings else previous.next;
    }

    /** A turn and the step to the next record. */
    method TurnOn(previous: Mapping?, item: Mapping, start: nat, end: nat, splitFails: bool, ghost i: nat)
      returns (ok: bool, last: Mapping?, next: Mapping?, ghost j: nat)
      requires Kept() && i < |spine| && At(spine, previous, item, i) && start < end
      modifies this`mappings, this`spine, this`pieces, this`records, records, this`references, this`freed
      ensures Kept() && fresh(records - old(records))
      ensures ok <==> !(splitFails && Splits(old(pieces)[i], start, end))
      ensures if ok then
                && j == i + |Cut(old(pieces)[i], start, end)| && At(spine, last, next, j)
                && pieces == Spliced(old(pieces), i, Cut(old(pieces)[i], start, end))
              else
                j == i && pieces == old(pieces)
    {
      j, next := i, null;
      ghost var qs := Cut(pieces[i], start, end);
      ok, last := Turn(previous, item, start, end, splitFails, i);
      if ok {
        j := i + |qs|;
        next := Following(last, j);
      }
    }

    /** The same, in terms of where the loop stands. */
    method Advance(previous: Mapping?, item: Mapping, start: nat, end: nat, splitFails: bool,
                   ghost ps: seq<Piece>, ghost i: nat, ghost stuck: bool, ghost k: nat)
      returns (ok: bool, last: Mapping?, next: Mapping?, ghost j: nat)
      requires Kept() && At(spine, previous, item, i) && start < end
      requires Underway(pieces, ps, i, start, end, splitFails, stuck, k)
      modifies this`mappings, this`spine, this`pieces, this`records, records, this`references, this`freed
      ensures Kept() && fresh(records - old(records))
      ensures Underway(pieces, ps, j, start, end, splitFails, stuck, k)
      ensures if ok then At(spine, last, next, j) && |pieces| - j < |old(pieces)| - i
              else stuck && |pieces| - j == |old(pieces)| - i
    {
      OneTurn(pieces, ps, i, start, end, splitFails, stuck, k);
      ok, last, next, j := TurnOn(previous, item, start, end, splitFails, i);
    }

    /** The loop over all records. It stops early only at a piece that would need a split record. */
    method UnmapLoop(start: nat, end: nat, splitFails: bool, ghost stuck: bool, ghost k: nat) returns (ok: bool)
      requires Kept() && start < end && Underway(pieces, pieces, 0, start, end, splitFails, stuck, k)
      modifies this`mappings, this`spine, this`pieces, this`records, records, this`references, this`freed
      ensures Kept() && fresh(records - old(records))
      ensures ok <==> !stuck
      ensures pieces == if ok then CutAll(old(pieces), start, end) else old(pieces)
    {
      ghost var ps, i: nat := pieces, 0;
      ok := true;
      var previous: Mapping?, item := null, mappings;
      while item != null && ok
        invariant Kept() && fresh(records - old(records))
        invariant Underway(pieces, ps, i, start, end, splitFails, stuck, k)
        invariant ok ==> At(spine, previous, item, i)
        invariant ok || stuck
        decreases |pieces| - i, ok
      {
        ok, previous, item, i := Advance(previous, item, start, end, splitFails, ps, i, stuck, k);
      }
      OutcomeEnds(pieces, start, end);
    }

    /** Removes exactly start..end from the mapped set, or changes nothing when the one record that a
        split needs cannot be had. */
    method UnmapRange(start: nat, end: nat, splitFails: bool) returns (ok: bool)
      requires Valid() && start % PAGE == 0 && end % PAGE == 0 && start < end
      modifies this`mappings, this`spine, this`pieces, this`records, records, this`references, this`freed
      ensures Valid() && fresh(records - old(records))
      ensures ok <==> !(splitFails && NeedsSplit(old(pieces), start, end))
      ensures pieces == if ok then CutAll(old(pieces), start, end) else old(pieces)
    {
      ghost var stuck := splitFails && NeedsSplit(pieces, start, end);
      ghost var k: nat := 0;
      if stuck {
        k :| k < |pieces| && Splits(pieces[k], start, end);
        SplitTouchesOnlyOne(pieces, k, start, end);
      }
      CutAllIsOk(pieces, start, end);
      OutcomeEnds(pieces, start, end);
      ok := UnmapLoop(start, end, splitFails, stuck, k);
    }

    /** munmap on the list of pieces. */
    method Unmap(address: word, length: word, splitFails: bool) returns (s: Status)
      requires Valid()
      modifies this`mappings, this`spine, this`pieces, this`records, records, this`references, this`freed
      ensures Valid() && fresh(records - old(records))
      ensures s == UnmapStatus(old(pieces), address, length, splitFails)
      ensures pieces == if s.Done? then CutAll(old(pieces), address, address + PageRound(length)) else old(pieces)
    {
      if UnmapRefused(address, length) {
        return Error(EINVAL);
      }
      RangeAligned(address, length);
      var end := address + PageRound(length);
      var ok := UnmapRange(address, end, splitFails);
      s := if ok then Done else Error(ENOMEM);
    }

    /** munmap: removes exactly the pages of the range, keeps every other address in its allocation,
        and frees an allocation exactly when its last address goes. */
    method Munmap(address: word, length: word, splitFails: bool) returns (s: Status)
      requires Valid()
      modifies this`mappings, this`spine, this`pieces, this`records, records, this`references, this`freed
      ensures Valid() && fresh(records - old(records))
      ensures s == UnmapStatus(old(pieces), address, length, splitFails)
      ensures s.Done? ==> forall x, a :: MapsTo(pieces, x, a) <==>
                            MapsTo(old(pieces), x, a) && !(address <= x < address + PageRound(length))
      ensures s.Error? ==> pieces == old(pieces)
      ensures forall a :: a in references <==> exists x :: MapsTo(pieces, x, a)
    {
      ghost var ps, end := pieces, address + PageRound(length);
      s := Unmap(address, length, splitFails);
      forall x, a
        ensures MapsTo(CutAll(ps, address, end), x, a) <==> MapsTo(ps, x, a) && !(address <= x < end)
      {
        CutAllMapsTo(ps, address, end, x, a);
      }
      forall a
        ensures a in references <==> exists x :: MapsTo(pieces, x, a)
      {
        LiveIffMapped(pieces, references, a);
      }
    }

    /** The first record whose piece holds all of size bytes at start. */
    method Containing(start: word, size: word) returns (item: Mapping?)
      requires Valid()
      ensures item == null <==> forall j :: 0 <= j < |pieces| ==> !Inside(pieces[j], start, size)
      ensures item != null ==> exists i :: FirstInside(pieces, i, start, size) && spine[i] == item
    {
      item := mappings;
      ghost var i: nat := 0;
      while item != null
        invariant i <= |spine| && item == (if i < |spine| then spine[i] else null)
        invariant forall j :: 0 <= j < i ==> !Inside(pieces[j], start, size)
        decreases |spine| - i
      {
        assert pieces[i] == Piece(item.base, item.size, item.allocation);
        if start >= item.base && start - item.base < item.size && size <= item.size - (start - item.base) {
          assert Inside(pieces[i], start, size);
          assert FirstInside(pieces, i, start, size) && spine[i] == item;
          return;
        }
        item, i := item.next, i + 1;
      }
    }

    /** The read loop of a file mapping: interrupted reads are repeated, short reads go on where they
        stopped, and nothing outside the destination is written. */
    method Fill(base: nat, length: nat, offset: nat, file: File) returns (s: Status)
      requires base + length <= |memory|
      modifies this`memory
      ensures s == FirstError(file.content, file.calls, offset, 0, length)
      ensures s.Done? ==> memory == Write(old(memory), base, Taken(file.content, offset, length))
      ensures SameOutside(old(memory), memory, base, base + length)
    {
      var content, calls, done := file.content, file.calls, 0;
      while done < length
        invariant done <= Available(content, offset, length)
        invariant FirstError(content, file.calls, offset, 0, length) == FirstError(content, calls, offset, done, length)
        invariant memory == Write(old(memory), base, Taken(content, offset, done))
        decreases length - done, |calls|
      {
        var read := if calls == [] then Short(0) else calls[0];
        calls := if calls == [] then [] else calls[1..];
        if read.Interrupted? {
          continue;
        }
        if read.Broken? {
          return Error(Io(read.code));
        }
        var n := Got(content, offset + done, length - done, read);
        if n == 0 {
          break;
        }
        WriteOn(old(memory), base, content, offset, done, n);
        memory := Write(memory, base + done, content[offset + done..offset + done + n]);
        done := done + n;
      }
      s := Done;
    }

    /** Links a new record at the head of the list. */
    method LinkFirst(base: nat, size: nat, a: Allocation)
      requires ListKept()
      modifies this`mappings, this`spine, this`pieces, this`records
      ensures ListKept() && fresh(records - old(records))
      ensures pieces == [Piece(base, size, a)] + old(pieces)
    {
      var item := new Mapping(mappings, base, size, a);
      mappings := item;
      spine, pieces, records := [item] + spine, [Piece(base, size, a)] + pieces, records + {item};
    }

    /** Gives a new mapping its contents. */
    method Load(request: Request, file: File, base: nat) returns (s: Status)
      requires !MmapInvalid(request) && base + PageRound(request.length) <= |memory|
      modifies this`memory
      ensures s == if request.anonymous then Done
                   else FirstError(file.content, file.calls, request.offset, 0, request.length)
      ensures s.Done? ==> memory == Write(old(memory), base, Shown(request, file))
      ensures SameOutside(old(memory), memory, base, base + PageRound(request.length))
    {
      PageRoundExact(request.length);
      memory := Write(memory, base, Zeros(PageRound(request.length)));
      s := Done;
      if !request.anonymous {
        s := Fill(base, request.length, request.offset, file);
      }
    }

    /** Loads and links a piece of a new block, or frees the block again. */
    method Create(request: Request, file: File, p: Piece) returns (s: Status)
      requires Kept() && !MmapInvalid(request) && p.owner !in references && p.size == PageRound(request.length)
      requires p.Limit() <= |memory|
      modifies this
      ensures Kept() && fresh(records - old(records))
      ensures s == if request.anonymous then Done
                   else FirstError(file.content, file.calls, request.offset, 0, request.length)
      ensures s.Error? ==> pieces == old(pieces) && references == old(references)
      ensures s.Done? ==> pieces == [p] + old(pieces) && memory == Write(old(memory), p.base, Shown(request, file))
      ensures SameOutside(old(memory), memory, p.base, p.Limit())
    {
      TakeBlock(p);
      s := Load(request, file, p.base);
      if s.Error? {
        GiveBack(p.owner, old(references));
      } else {
        LinkFirst(p.base, p.size, p.owner);
      }
    }

    /** A new block with one reference. */
    method TakeBlock(p: Piece)
      requires Counted(pieces, references) && Balanced(made, freed, references) && p.owner !in references
      modifies this`references, this`made
      ensures references == old(references)[p.owner := 1]
      ensures Counted([p] + pieces, references) && Balanced(made, freed, references)
    {
      AddFirst(pieces, p, references);
      references, made := references[p.owner := 1], made + multiset{p.owner};
    }

    /** The only reference of a new block is dropped again. */
    method GiveBack(a: Allocation, ghost before: map<Allocation, nat>)
      requires Balanced(made, freed, references) && a !in before && references == before[a := 1]
      modifies this`references, this`freed
      ensures references == before && Balanced(made, freed, references)
    {
      Release(a);
    }

    /** mmap: either an error and no change to any mapped byte, or a fresh page-aligned piece that
        shows zeros or the file. */
    method Mmap(request: Request, file: File, block: Option<nat>) returns (r: Reply)
      requires Valid()
      requires block.Some? ==> Malloced(references, block.value, PageRound(request.length) + PAGE - 1)
      modifies this
      ensures Valid() && fresh(records - old(records))
      ensures r == MmapReply(request, file, block)
      ensures r.Failed? ==> pieces == old(pieces) && references == old(references)
      ensures r.Failed? && request.anonymous ==> memory == old(memory)
      ensures r.Placed? ==>
                var size := PageRound(request.length);
                && pieces == [Piece(r.address, size, Allocation(block.value, size + PAGE - 1))] + old(pieces)
                && (forall x :: r.address <= x < r.address + size ==> !Mapped(old(pieces), x))
                && r.address + size <= WORD && memory == Write(old(memory), r.address, Shown(request, file))
      ensures forall x :: 0 <= x < WORD && Mapped(old(pieces), x) ==> memory[x] == old(memory)[x]
    {
      if MmapInvalid(request) {
        return Failed(EINVAL);
      }
      if request.fixed || request.shared || request.executable {
        return Failed(ENOTSUP);
      }
      if block.None? {
        return Failed(ENOMEM);
      }
      var size := PageRound(request.length);
      PageRoundExact(request.length);
      var base := PageFloor(block.value + PAGE - 1);
      FloorIsAligned(block.value + PAGE - 1);
      var p := Piece(base, size, Allocation(block.value, size + PAGE - 1));
      NewApart(pieces, references, p);
      var s := Create(request, file, p);
      r := if s.Error? then Failed(s.error) else Placed(base);
    }

    /** The growing mremap: the new piece holds the old bytes followed by zeros. The old range goes
        unless removing it needed a record that could not be had. */
    method Move(address: word, oldPages: word, newSize: word, block: Option<nat>, splitFails: bool, ghost k: nat)
      returns (r: Reply)
      requires Valid() && k < |pieces| && Inside(pieces[k], address, oldPages)
      requires address % PAGE == 0 && oldPages % PAGE == 0 && 0 < oldPages < PageRound(newSize)
      requires 0 < newSize <= SIZE_MAX - (2 * PAGE - 2)
      requires block.Some? ==> Malloced(references, block.value, PageRound(newSize) + PAGE - 1)
      modifies this, records
      ensures Valid() && fresh(records - old(records))
      ensures r == if block.None? then Failed(ENOMEM) else Placed(PageFloor(block.value + PAGE - 1))
      ensures r.Failed? ==> pieces == old(pieces) && memory == old(memory)
      ensures r.Placed? ==> Moved(old(pieces), pieces, r.address, address, oldPages, PageRound(newSize), splitFails)
      ensures r.Placed? ==> Carried(old(memory), memory, r.address, address, oldPages, PageRound(newSize))
    {
      ghost var ps := pieces;
      r := Duplicate(address, oldPages, newSize, block, k);
      if r.Failed? {
        return;
      }
      MovedAfterUnmap(pieces, ps, k, address, oldPages, splitFails);
      var ignored := Unmap(address, oldPages, splitFails);
    }

    /** A new piece with the bytes of an old range followed by zeros. */
    method Duplicate(address: word, oldPages: word, newSize: word, block: Option<nat>, ghost k: nat) returns (r: Reply)
      requires Valid() && k < |pieces| && Inside(pieces[k], address, oldPages)
      requires 0 < oldPages < PageRound(newSize) && 0 < newSize <= SIZE_MAX - (2 * PAGE - 2)
      requires block.Some? ==> Malloced(references, block.value, PageRound(newSize) + PAGE - 1)
      modifies this
      ensures Valid() && fresh(records - old(records))
      ensures r == if block.None? then Failed(ENOMEM) else Placed(PageFloor(block.value + PAGE - 1))
      ensures r.Failed? ==> pieces == old(pieces) && memory == old(memory)
      ensures r.Placed? ==>
                && |pieces| > 0 && pieces[1..] == old(pieces)
                && pieces[0].base == r.address && pieces[0].size == PageRound(newSize)
                && Carried(old(memory), memory, r.address, address, oldPages, PageRound(newSize))
    {
      InsideMapped(pieces, k, address, oldPages);
      assert PieceOk(pieces[k]);
      var request := Request(newSize, false, false, false, true, 0);
      r := Mmap(request, File([], []), block);
      if r.Placed? {
        ghost var cleared := memory;
        OldAndNewApart(old(pieces), address, oldPages, r.address, PageRound(newSize));
        memory := Write(memory, r.address, memory[address..address + oldPages]);
        Refilled(old(memory), cleared, r.address, address, oldPages, PageRound(newSize));
      }
    }

    /** The shrinking mremap. */
    method Shrink(address: word, oldPages: word, newPages: word, splitFails: bool, ghost k: nat) returns (r: Reply)
      requires Valid() && k < |pieces| && Inside(pieces[k], address, oldPages) && newPages <= oldPages
      requires address % PAGE == 0 && oldPages % PAGE == 0 && newPages % PAGE == 0
      modifies this`mappings, this`spine, this`pieces, this`records, records, this`references, this`freed
      ensures Valid() && fresh(records - old(records))
      ensures r == if newPages < oldPages && splitFails
                      && NeedsSplit(old(pieces), address + newPages, address + oldPages)
                   then Failed(ENOMEM) else Placed(address)
      ensures pieces == if r.Failed? || newPages == oldPages then old(pieces)
                        else CutAll(old(pieces), address + newPages, address + oldPages)
    {
      if newPages < oldPages {
        TailIsFine(pieces, k, address, oldPages, newPages);
        var s := Unmap(address + newPages, oldPages - newPages, splitFails);
        if s.Error? {
          return Failed(s.error);
        }
      }
      r := Placed(address);
    }

    /** mremap once its arguments have passed the checks. */
    method Resize(address: word, oldPages: word, newSize: word, mayMove: bool, block: Option<nat>, splitFails: bool,
                  ghost k: nat) returns (r: Reply)
      requires Valid() && k < |pieces| && Inside(pieces[k], address, oldPages)
      requires address % PAGE == 0 && oldPages % PAGE == 0 && 0 < oldPages && 0 < newSize <= SIZE_MAX - (2 * PAGE - 2)
      requires block.Some? ==> Malloced(references, block.value, PageRound(newSize) + PAGE - 1)
      modifies this, records
      ensures Valid() && fresh(records - old(records))
      ensures r == ResizeReply(old(pieces), address, oldPages, PageRound(newSize), mayMove, block, splitFails)
      ensures r.Failed? ==> pieces == old(pieces) && memory == old(memory)
      ensures r.Placed? ==> Resized(old(pieces), pieces, old(memory), memory, r.address, address, oldPages,
                                    PageRound(newSize), splitFails)
    {
      PageRoundExact(newSize);
      var newPages := PageRound(newSize);
      if newPages <= oldPages {
        r := Shrink(address, oldPages, newPages, splitFails, k);
      } else if !mayMove {
        r := Failed(ENOMEM);
      } else {
        r := Move(address, oldPages, newSize, block, splitFails, k);
      }
    }

    /** mremap: moves, shrinks or leaves a range inside one piece, and never changes a byte that was
        mapped before the call. */
    method Mremap(address: word, oldSize: word, newSize: word, mayMove: bool, otherFlags: bool,
                  block: Option<nat>, splitFails: bool) returns (r: Reply)
      requires Valid()
      requires block.Some? ==> Malloced(references, block.value, PageRound(newSize) + PAGE - 1)
      modifies this, records
      ensures Valid() && fresh(records - old(records))
      ensures r == MremapReply(old(pieces), address, oldSize, newSize, mayMove, otherFlags, block, splitFails)
      ensures r.Failed? ==> pieces == old(pieces) && memory == old(memory)
      ensures r.Placed? ==> Resized(old(pieces), pieces, old(memory), memory, r.address, address,
                                    PageRound(oldSize), PageRound(newSize), splitFails)
    {
      if otherFlags {
        return Failed(ENOTSUP);
      }
      if MremapInvalid(address, oldSize, newSize) {
        return Failed(EINVAL);
      }
      PageRoundExact(oldSize);
      PageRoundExact(newSize);
      var oldPages, newPages := PageRound(oldSize), PageRound(newSize);
      var item := Containing(address, oldPages);
      if item == null {
        return Failed(EFAULT);
      }
      ghost var k: nat :| k < |pieces| && Inside(pieces[k], address, oldPages);
      r := Resize(address, oldPages, newSize, mayMove, block, splitFails, k);
    }

    /** mincore: succeeds exactly when every address of the range is mapped, also where the range
        runs past the top of the address space. */
    method Mincore(address: word, length: word, vector: array<byte>) returns (s: Status)
      requires Valid() && vector.Length >= Pages(length)
      modifies vector
      ensures s == if address % PAGE != 0 then Error(EINVAL)
                   else if forall x :: address <= x < address + length ==> Mapped(pieces, x) then Done
                   else Error(ENOMEM)
      ensures forall i :: 0 <= i < vector.Length ==>
                vector[i] == if s.Done? && i < Pages(length) then 1 else old(vector[i])
    {
      if address % PAGE != 0 {
        return Error(EINVAL);
      }
      var pages, i := Pages(length), 0;
      while i < pages
        invariant 0 <= i <= pages
        invariant forall x :: address <= x < address + i * PAGE ==> Mapped(pieces, x)
        modifies {}
      {
        var item := Containing(Add(address, i * PAGE), PAGE);
        OnePage(pieces, address, length, i);
        if item == null {
          return Error(ENOMEM);
        }
        i := i + 1;
      }
      i := 0;
      while i < pages
        invariant 0 <= i <= pages
        invariant forall j :: 0 <= j < vector.Length ==> vector[j] == if j < i then 1 else old(vector[j])
      {
        vector[i] := 1;
        i := i + 1;
      }
      s := Done;
    }

    /** What malloc answers: the proposed address if a block can be there, nothing otherwise. */
    method Malloc(block: Option<nat>, bytes: nat) returns (r: Option<nat>)
      ensures r.Some? ==> r == block && Malloced(references, r.value, bytes)
      ensures block.Some? && Malloced(references, block.value, bytes) ==> r == block
    {
      r := if block.Some? && Malloced(references, block.value, bytes) then block else None;
    }

    /** One call of the guest's. */
    method Serve(call: Call)
      requires Valid()
      modifies this, records
      ensures Valid() && fresh(records - old(records))
    {
      match call
      case CallMmap(request, file, block) =>
        var found := Malloc(block, PageRound(request.length) + PAGE - 1);
        var r := Mmap(request, file, found);
      case CallMunmap(address, length, splitFails) =>
        var s := Munmap(address, length, splitFails);
      case CallMremap(address, oldSize, newSize, mayMove, otherFlags, block, splitFails) =>
        var found := Malloc(block, PageRound(newSize) + PAGE - 1);
        var r := Mremap(address, oldSize, newSize, mayMove, otherFlags, found, splitFails);
      case CallMincore(address, length) =>
        var vector := new byte[Pages(length)];
        var s := Mincore(address, length, vector);
    }

    /** Any sequence of calls, with any outcome of the allocations they make, keeps the pieces aligned,
        non-empty, inside their block and apart, every count exact, every block live as long as an
        address is mapped into it, and every block handed back exactly once when none is. */
    method Session(calls: seq<Call>)
      requires Valid()
      modifies this, records
      ensures Valid() && fresh(records - old(records))
      ensures AllOk(pieces) && AllApart(pieces)
      ensures forall a :: a in references <==> exists x :: MapsTo(pieces, x, a)
      ensures forall a :: a in references ==> references[a] == Count(pieces, a)
      ensures forall a :: made[a] == freed[a] + if exists x :: MapsTo(pieces, x, a) then 1 else 0
    {
      var i := 0;
      while i < |calls|
        invariant 0 <= i <= |calls| && Valid() && fresh(records - old(records))
      {
        Serve(calls[i]);
        i := i + 1;
      }
      forall a
        ensures a in references <==> exists x :: MapsTo(pieces, x, a)
        ensures a in references ==> references[a] == Count(pieces, a)
      {
        LiveIffMapped(pieces, references, a);
        assert Count(pieces, a) == Lookup(references, a);
      }
    }
  }

  predicate MremapInvalid(address: word, oldSize: word, newSize: word) {
    || address % PAGE != 0 || oldSize == 0 || newSize == 0
    || oldSize > SIZE_MAX - (2 * PAGE - 2) || newSize > SIZE_MAX - (2 * PAGE - 2)
  }

  /** What mremap answers, the checks in order. */
  ghost function MremapReply(ps: seq<Piece>, address: word, oldSize: word, newSize: word, mayMove: bool,
                             otherFlags: bool, block: Option<nat>, splitFails: bool): Reply {
    var oldPages, newPages := PageRound(oldSize), PageRound(newSize);
    if otherFlags then Failed(ENOTSUP)
    else if MremapInvalid(address, oldSize, newSize) then Failed(EINVAL)
    else if !exists k :: 0 <= k < |ps| && Inside(ps[k], address, oldPages) then Failed(EFAULT)
    else ResizeReply(ps, address, oldPages, newPages, mayMove, block, splitFails)
  }

  ghost function ResizeReply(ps: seq<Piece>, address: nat, oldPages: nat, newPages: nat, mayMove: bool,
                             block: Option<nat>, splitFails: bool): Reply {
    if newPages <= oldPages then
      if newPages < oldPages && splitFails && NeedsSplit(ps, address + newPages, address + oldPages) then Failed(ENOMEM)
      else Placed(address)
    else if !mayMove || block.None? then Failed(ENOMEM)
    else Placed(PageFloor(block.value + PAGE - 1))
  }

  /** What a successful mremap leaves behind: the same, a shorter range, or a moved and longer one. */
  ghost predicate Resized(before: seq<Piece>, after: seq<Piece>, memory: seq<byte>, memory': seq<byte>,
                          to: nat, from: nat, oldPages: nat, newPages: nat, splitFails: bool) {
    if newPages <= oldPages then
      && to == from && memory' == memory
      && after == if newPages == oldPages then before else CutAll(before, from + newPages, from + oldPages)
    else
      && Moved(before, after, to, from, oldPages, newPages, splitFails)
      && Carried(memory, memory', to, from, oldPages, newPages)
  }

  /** The tail of a range inside a piece passes munmap's checks. */
  lemma {:induction false} TailIsFine(ps: seq<Piece>, k: nat, address: nat, oldPages: nat, newPages: nat)
    requires AllOk(ps) && k < |ps| && Inside(ps[k], address, oldPages) && newPages < oldPages
    requires address % PAGE == 0 && oldPages % PAGE == 0 && newPages % PAGE == 0
    ensures address + newPages < WORD && oldPages - newPages < WORD
    ensures !UnmapRefused(address + newPages, oldPages - newPages)
    ensures PageRound(oldPages - newPages) == oldPages - newPages
  {
    assert PieceOk(ps[k]);
    assert (oldPages - newPages) % PAGE == 0;
    assert oldPages - newPages <= SIZE_MAX - (PAGE - 1);
    PageRoundExact(oldPages - newPages);
  }

  function Pages(length: word): nat {
    length / PAGE + if length % PAGE != 0 then 1 else 0
  }

  /** One query of mincore decides whether page i is mapped, although its address may have wrapped. */
  lemma {:induction false} OnePage(ps: seq<Piece>, address: word, length: word, i: nat)
    requires AllOk(ps) && address % PAGE == 0 && i < Pages(length)
    requires forall x :: address <= x < address + i * PAGE ==> Mapped(ps, x)
    ensures address + i * PAGE < address + length
    ensures var found := exists j :: 0 <= j < |ps| && Inside(ps[j], Add(address, i * PAGE), PAGE);
            && (found ==> forall x :: address <= x < address + (i + 1) * PAGE ==> Mapped(ps, x))
            && (!found ==> !Mapped(ps, address + i * PAGE))
  {
    var page := address + i * PAGE;
    if i > 0 {
      assert Mapped(ps, page - 1);
    }
    MappedInWord(ps, page - 1);
    MappedInWord(ps, page);
    assert page % PAGE == 0;
    PageMapped(ps, page);
    assert Add(address, i * PAGE) == page;
  }

  lemma {:induction false} MappedInWord(ps: seq<Piece>, x: int)
    requires AllOk(ps)
    ensures Mapped(ps, x) ==> 0 < x < WORD - 1
  {
    if i :| 0 <= i < |ps| && ps[i].base <= x < ps[i].Limit() {
      assert PieceOk(ps[i]);
    }
  }

  /** Pieces are page-aligned, so a page is mapped as soon as its first byte is. */
  lemma {:induction false} PageMapped(ps: seq<Piece>, page: nat)
    requires AllOk(ps) && page % PAGE == 0
    ensures Mapped(ps, page) <==> exists j :: 0 <= j < |ps| && Inside(ps[j], page, PAGE)
    ensures Mapped(ps, page) ==> forall x :: page <= x < page + PAGE ==> Mapped(ps, x)
  {
    if Mapped(ps, page) {
      var i :| 0 <= i < |ps| && ps[i].base <= page < ps[i].Limit();
      assert PieceOk(ps[i]);
      assert ps[i].Limit() % PAGE == 0;
      assert page + PAGE <= ps[i].Limit();
      assert Inside(ps[i], page, PAGE);
      InsideMapped(ps, i, page, PAGE);
    }
  }

  lemma {:induction false} OldAndNewApart(ps: seq<Piece>, from: nat, oldPages: nat, to: nat, newPages: nat)
    requires oldPages > 0 && newPages > 0
    requires forall x :: from <= x < from + oldPages ==> Mapped(ps, x)
    requires forall x :: to <= x < to + newPages ==> !Mapped(ps, x)
    ensures to + newPages <= from || from + oldPages <= to
  {
    var x := if from <= to then to else from;
    assert from <= x < from + oldPages ==> Mapped(ps, x);
  }

  /** The bytes after a move: the old ones, then zeros, and nothing else touched. */
  ghost predicate Carried(before: seq<byte>, after: seq<byte>, to: nat, from: nat, oldPages: nat, newPages: nat) {
    && from + oldPages <= |before| && oldPages <= newPages && to + newPages <= |before|
    && after == Write(before, to, before[from..from + oldPages] + Zeros(newPages - oldPages))
  }

  lemma {:induction false} Refilled(before: seq<byte>, cleared: seq<byte>, to: nat, from: nat, oldPages: nat,
                                    newPages: nat)
    requires from + oldPages <= |before| && oldPages <= newPages && to + newPages <= |before|
    requires to + newPages <= from || from + oldPages <= to
    requires cleared == Write(before, to, Zeros(newPages))
    ensures Carried(before, Write(cleared, to, cleared[from..from + oldPages]), to, from, oldPages, newPages)
  {
  }

  /** The pieces after a move: a new first one, and the old range gone unless it had to be split in vain. */
  ghost predicate Moved(before: seq<Piece>, after: seq<Piece>, to: nat, from: nat, oldPages: nat, newPages: nat,
                        splitFails: bool) {
    && |after| > 0 && after[0].base == to && after[0].size == newPages
    && after[1..] == if splitFails && NeedsSplit(before, from, from + oldPages) then before
                     else CutAll(before, from, from + oldPages)
  }

  /** Unmapping a range inside an older piece leaves the first piece alone. */
  lemma {:induction false} PastFirst(all: seq<Piece>, ps: seq<Piece>, k: nat, start: nat, size: nat)
    requires AllOk(all) && AllApart(all) && |all| > 0 && all[1..] == ps && k < |ps| && Inside(ps[k], start, size)
    requires start % PAGE == 0 && size % PAGE == 0 && size > 0
    ensures !(start < WORD && size < WORD && UnmapRefused(start, size)) && PageRound(size) == size
    ensures CutAll(all, start, start + size) == [all[0]] + CutAll(ps, start, start + size)
    ensures NeedsSplit(all, start, start + size) <==> NeedsSplit(ps, start, start + size)
  {
    assert all[k + 1] == ps[k];
    assert Apart(all[0], all[k + 1]) && PieceOk(all[k + 1]);
    assert size <= SIZE_MAX - (PAGE - 1);
    PageRoundExact(size);
    if NeedsSplit(all, start, start + size) {
      var i :| 0 <= i < |all| && Splits(all[i], start, start + size);
      assert ps[i - 1] == all[i];
    }
    if NeedsSplit(ps, start, start + size) {
      var i :| 0 <= i < |ps| && Splits(ps[i], start, start + size);
      assert all[i + 1] == ps[i];
    }
  }

  /** So the unmapping that ends a move, whether or not it fails, gives the pieces of a move. */
  lemma {:induction false} MovedAfterUnmap(all: seq<Piece>, ps: seq<Piece>, k: nat, start: word, size: word,
                                           splitFails: bool)
    requires AllOk(all) && AllApart(all) && |all| > 0 && all[1..] == ps && k < |ps| && Inside(ps[k], start, size)
    requires start % PAGE == 0 && size % PAGE == 0 && size > 0
    ensures var done := UnmapStatus(all, start, size, splitFails).Done?;
      var after := if done then CutAll(all, start, start + PageRound(size)) else all;
      Moved(ps, after, all[0].base, start, size, all[0].size, splitFails)
  {
    PastFirst(all, ps, k, start, size);
    assert ([all[0]] + CutAll(ps, start, start + size))[1..] == CutAll(ps, start, start + size);
  }

  lemma {:induction false} InsideMapped(ps: seq<Piece>, k: nat, start: nat, size: nat)
    requires k < |ps| && Inside(ps[k], start, size)
    ensures forall x :: start <= x < start + size ==> Mapped(ps, x)
  {
  }

  predicate FirstInside(ps: seq<Piece>, i: int, start: nat, size: nat) {
    0 <= i < |ps| && Inside(ps[i], start, size) && forall j :: 0 <= j < i ==> !Inside(ps[j], start, size)
  }

  predicate Inside(p: Piece, start: nat, size: nat) {
    start >= p.base && start < p.Limit() && start + size <= p.Limit()
  }

  lemma {:induction false} LiveIffMapped(ps: seq<Piece>, references: map<Allocation, nat>, a: Allocation)
    requires Counted(ps, references) && AllOk(ps)
    ensures a in references <==> exists x :: MapsTo(ps, x, a)
  {
    if a in references {
      var i := OwnedPiece(ps, a);
      assert PieceOk(ps[i]);
      assert MapsTo(ps, ps[i].base, a);
    }
    if x :| MapsTo(ps, x, a) {
      var i :| 0 <= i < |ps| && ps[i].owner == a && ps[i].base <= x < ps[i].Limit();
      CountMember(ps, i);
    }
  }

  lemma {:induction false} OwnedPiece(ps: seq<Piece>, a: Allocation) returns (i: nat)
    requires Count(ps, a) > 0
    ensures i < |ps| && ps[i].owner == a
  {
    i := |ps| - 1;
    if ps[i].owner != a {
      i := OwnedPiece(ps[..i], a);
    }
  }

  /** Reference counts depend on owners only. */
  lemma {:induction false} CountsByOwner(before: seq<Piece>, i: nat, part: Piece, references: map<Allocation, nat>)
    requires i < |before| && part.owner == before[i].owner && Counted(before, references)
    ensures Counted(before[i := part], references)
  {
    var after := before[i := part];
    assert after == Spliced(before, i, [part]);
    forall a
      ensures Count(after, a) == Count(before, a)
    {
      CountReplaced(before, i, [part], a);
      CountOne(part, a);
    }
  }

  lemma {:induction false} CountMember(ps: seq<Piece>, i: nat)
    requires i < |ps|
    ensures Count(ps, ps[i].owner) > 0
  {
    var a := ps[i].owner;
    assert ps == ps[..i] + [ps[i]] + ps[i + 1..];
    CountConcat(ps[..i] + [ps[i]], ps[i + 1..], a);
    CountConcat(ps[..i], [ps[i]], a);
    CountOne(ps[i], a);
  }

  lemma {:induction false} MiddleIs(ps: seq<Piece>, i: nat, start: nat, end: nat)
    requires i < |ps| && Splits(ps[i], start, end) && start < end
    ensures var p := ps[i];
            var first, rest := Piece(p.base, start - p.base, p.owner), Piece(end, p.Limit() - end, p.owner);
            && Cut(p, start, end) == [first, rest]
            && Inserted(ps, i + 1, rest)[i := first] == Spliced(ps, i, [first, rest])
  {
  }

  /** A piece of a new block overlaps no mapped address. */
  lemma {:induction false} NewApart(ps: seq<Piece>, references: map<Allocation, nat>, p: Piece)
    requires Counted(ps, references) && AllOk(ps) && AllApart(ps) && PieceOk(p)
    requires Malloced(references, p.owner.memory, p.owner.bytes)
    ensures p.owner !in references
    ensures AllOk([p] + ps) && AllApart([p] + ps)
    ensures forall x :: p.base <= x < p.Limit() ==> !Mapped(ps, x)
  {
    var all := [p] + ps;
    forall j | 0 <= j < |ps|
      ensures Apart(p, ps[j]) && all[j + 1] == ps[j]
    {
      CountMember(ps, j);
      assert ps[j].owner in references && PieceOk(ps[j]);
    }
    forall i, j | 0 <= i < j < |all|
      ensures Apart(all[i], all[j])
    {
      assert all[j] == ps[j - 1];
      assert i > 0 ==> all[i] == ps[i - 1];
    }
  }

  lemma {:induction false} AddFirst(ps: seq<Piece>, p: Piece, references: map<Allocation, nat>)
    requires Counted(ps, references) && p.owner !in references
    ensures Counted([p] + ps, references[p.owner := 1])
  {
    forall a
      ensures Count([p] + ps, a) == Count(ps, a) + if p.owner == a then 1 else 0
    {
      CountConcat([p], ps, a);
      CountOne(p, a);
    }
  }
}
