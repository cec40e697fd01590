/** Page arithmetic in 64-bit unsigned integers, and lists of page ranges that share allocations. */
module PageRanges {
  import opened Common

  const PAGE: nat := 4096
  const WORD: nat := 0x1_0000_0000_0000_0000

  /** Unsigned 64-bit addition. */
  function Add(a: nat, b: nat): nat {
    (a + b) % WORD
  }

  /** n with its low twelve bits cleared. */
  function PageFloor(n: nat): nat {
    n - n % PAGE
  }

  /** The PAGE_ROUND macro, with the addition wrapping as size_t does. */
  function PageRound(n: nat): nat {
    PageFloor(Add(n, PAGE - 1))
  }

  /** Below the guard that every caller checks, rounding up is exact. */
  lemma {:induction false} PageRoundExact(n: nat)
    requires n <= SIZE_MAX - (PAGE - 1)
    ensures n <= PageRound(n) < n + PAGE
    ensures PageRound(n) % PAGE == 0
    ensures n > 0 ==> PageRound(n) > 0
    ensures n % PAGE == 0 ==> PageRound(n) == n
  {
  }

  lemma {:induction false} FloorIsAligned(n: nat)
    ensures PageFloor(n) % PAGE == 0 && PageFloor(n) <= n < PageFloor(n) + PAGE
    ensures n % PAGE == 0 ==> PageFloor(n) == n
  {
  }

  /** One block from malloc: where it starts and how many bytes it has. */
  datatype Allocation = Allocation(memory: nat, bytes: nat)

  datatype Piece = Piece(base: nat, size: nat, owner: Allocation) {
    function Limit(): nat { base + size }
  }

  /** Page-aligned, non-empty, inside its allocation. */
  ghost predicate PieceOk(p: Piece) {
    && p.base % PAGE == 0 && p.size % PAGE == 0 && p.size > 0 && p.base > 0
    && p.owner.memory <= p.base && p.base + p.size <= p.owner.memory + p.owner.bytes < WORD
  }

  ghost predicate Apart(p: Piece, q: Piece) {
    p.base + p.size <= q.base || q.base + q.size <= p.base
  }

  ghost predicate AllApart(ps: seq<Piece>) {
    forall i, j {:trigger Apart(ps[i], ps[j])} :: 0 <= i < j < |ps| ==> Apart(ps[i], ps[j])
  }

  ghost predicate AllOk(ps: seq<Piece>) {
    forall i {:trigger PieceOk(ps[i])} :: 0 <= i < |ps| ==> PieceOk(ps[i])
  }

  /** The abstract mapper: which addresses are mapped, and into which allocation. */
  ghost predicate MapsTo(ps: seq<Piece>, address: int, a: Allocation) {
    exists i :: 0 <= i < |ps| && ps[i].owner == a && ps[i].base <= address < ps[i].Limit()
  }

  ghost predicate Mapped(ps: seq<Piece>, address: int) {
    exists i :: 0 <= i < |ps| && ps[i].base <= address < ps[i].Limit()
  }

  /** How many pieces share an allocation. */
  function Count(ps: seq<Piece>, a: Allocation): nat {
    if ps == [] then 0 else Count(ps[..|ps| - 1], a) + (if ps[|ps| - 1].owner == a then 1 else 0)
  }

  lemma {:induction false} CountConcat(ps: seq<Piece>, qs: seq<Piece>, a: Allocation)
    ensures Count(ps + qs, a) == Count(ps, a) + Count(qs, a)
    decreases |qs|
  {
    if qs == [] {
      assert ps + qs == ps;
    } else {
      var n := |qs| - 1;
      CountConcat(ps, qs[..n], a);
      assert (ps + qs)[..|ps| + n] == ps + qs[..n];
    }
  }

  lemma {:induction false} CountOne(p: Piece, a: Allocation)
    ensures Count([p], a) == if p.owner == a then 1 else 0
  {
  }

  // ----- Unmapping on the list of pieces -----

  /** What is left of one piece after removing the addresses start..end. */
  function Cut(p: Piece, start: nat, end: nat): seq<Piece> {
    if end <= p.base || start >= p.Limit() then [p]
    else
      (if start > p.base then [Piece(p.base, start - p.base, p.owner)] else [])
      + (if end < p.Limit() then [Piece(end, p.Limit() - end, p.owner)] else [])
  }

  function CutAll(ps: seq<Piece>, start: nat, end: nat): seq<Piece> {
    if ps == [] then [] else Cut(ps[0], start, end) + CutAll(ps[1..], start, end)
  }

  lemma {:induction false} MapsToConcat(ps: seq<Piece>, qs: seq<Piece>, address: int, a: Allocation)
    ensures MapsTo(ps + qs, address, a) <==> MapsTo(ps, address, a) || MapsTo(qs, address, a)
  {
    var all := ps + qs;
    if MapsTo(all, address, a) {
      var i :| 0 <= i < |all| && all[i].owner == a && all[i].base <= address < all[i].Limit();
      assert if i < |ps| then ps[i] == all[i] else qs[i - |ps|] == all[i];
    }
    if MapsTo(ps, address, a) {
      var i :| 0 <= i < |ps| && ps[i].owner == a && ps[i].base <= address < ps[i].Limit();
      assert all[i] == ps[i];
    }
    if MapsTo(qs, address, a) {
      var i :| 0 <= i < |qs| && qs[i].owner == a && qs[i].base <= address < qs[i].Limit();
      assert all[|ps| + i] == qs[i];
    }
  }

  lemma {:induction false} MapsToOne(p: Piece, address: int, a: Allocation)
    ensures MapsTo([p], address, a) <==> p.owner == a && p.base <= address < p.Limit()
  {
    assert [p][0] == p;
  }

  lemma {:induction false} CutMapsTo(p: Piece, start: nat, end: nat, address: int, a: Allocation)
    requires start <= end
    ensures MapsTo(Cut(p, start, end), address, a)
            <==> p.owner == a && p.base <= address < p.Limit() && !(start <= address < end)
  {
    MapsToOne(p, address, a);
    if !(end <= p.base || start >= p.Limit()) {
      var left := if start > p.base then [Piece(p.base, start - p.base, p.owner)] else [];
      var right := if end < p.Limit() then [Piece(end, p.Limit() - end, p.owner)] else [];
      MapsToConcat(left, right, address, a);
      MapsToOne(Piece(p.base, if start > p.base then start - p.base else 0, p.owner), address, a);
      MapsToOne(Piece(end, if end < p.Limit() then p.Limit() - end else 0, p.owner), address, a);
      assert MapsTo(left, address, a) <==> p.owner == a && p.base <= address < start && start > p.base;
      assert MapsTo(right, address, a) <==> p.owner == a && end <= address < p.Limit();
    }
  }

  /** Unmapping removes exactly the addresses of the range; every other address stays mapped into
      the allocation it was mapped into. */
  lemma {:induction false} CutAllMapsTo(ps: seq<Piece>, start: nat, end: nat, address: int, a: Allocation)
    requires start <= end
    ensures MapsTo(CutAll(ps, start, end), address, a) <==> MapsTo(ps, address, a) && !(start <= address < end)
  {
    if ps != [] {
      CutAllMapsTo(ps[1..], start, end, address, a);
      CutMapsTo(ps[0], start, end, address, a);
      MapsToConcat(Cut(ps[0], start, end), CutAll(ps[1..], start, end), address, a);
      assert ps == [ps[0]] + ps[1..];
      MapsToConcat([ps[0]], ps[1..], address, a);
      MapsToOne(ps[0], address, a);
    }
  }

  /** The range lies strictly inside the piece, so removing it needs a second record. */
  predicate Splits(p: Piece, start: nat, end: nat) {
    start > p.base && end < p.Limit()
  }

  ghost predicate NeedsSplit(ps: seq<Piece>, start: nat, end: nat) {
    exists i :: 0 <= i < |ps| && Splits(ps[i], start, end)
  }

  /** None of the pieces from i on has to be split. */
  ghost predicate NoneSplits(ps: seq<Piece>, i: nat, start: nat, end: nat) {
    forall j {:trigger Splits(ps[j], start, end)} :: i <= j < |ps| ==> !Splits(ps[j], start, end)
  }

  /** The range lies strictly inside piece k and touches no other. */
  ghost predicate OnlyTouches(ps: seq<Piece>, k: nat, start: nat, end: nat) {
    && k < |ps| && Splits(ps[k], start, end)
    && forall j {:trigger Splits(ps[j], start, end)} :: 0 <= j < |ps| && j != k ==>
         Cut(ps[j], start, end) == [ps[j]] && !Splits(ps[j], start, end)
  }

  /** By disjointness, a range strictly inside one piece touches no other. */
  lemma {:induction false} SplitTouchesOnlyOne(ps: seq<Piece>, k: nat, start: nat, end: nat)
    requires AllApart(ps) && k < |ps| && Splits(ps[k], start, end) && start < end
    ensures OnlyTouches(ps, k, start, end)
  {
    forall j | 0 <= j < |ps| && j != k
      ensures Cut(ps[j], start, end) == [ps[j]] && !Splits(ps[j], start, end)
    {
      assert if j < k then Apart(ps[j], ps[k]) else Apart(ps[k], ps[j]);
    }
  }

  // ----- Replacing one piece by parts of itself -----

  function Spliced(ps: seq<Piece>, k: nat, qs: seq<Piece>): seq<Piece>
    requires k < |ps|
  {
    ps[..k] + qs + ps[k + 1..]
  }

  /** Parts of a piece: inside it, aligned, non-empty, in order, with the same owner. */
  ghost predicate PartsOf(qs: seq<Piece>, p: Piece) {
    && AllOk(qs) && AllApart(qs)
    && forall i :: 0 <= i < |qs| ==> p.base <= qs[i].base && qs[i].Limit() <= p.Limit() && qs[i].owner == p.owner
  }

  lemma {:induction false} CutIsParts(p: Piece, start: nat, end: nat)
    requires PieceOk(p) && start % PAGE == 0 && end % PAGE == 0 && start < end
    ensures PartsOf(Cut(p, start, end), p)
    ensures |Cut(p, start, end)| <= 2
  {
    assert (p.base + p.size) % PAGE == 0;
    assert start > p.base ==> (start - p.base) % PAGE == 0;
    assert end < p.Limit() ==> (p.Limit() - end) % PAGE == 0;
  }

  lemma {:induction false} ReplacedIsOk(ps: seq<Piece>, k: nat, qs: seq<Piece>)
    requires AllOk(ps) && AllApart(ps) && k < |ps| && PartsOf(qs, ps[k])
    ensures AllOk(Spliced(ps, k, qs)) && AllApart(Spliced(ps, k, qs))
  {
    var rs := Spliced(ps, k, qs);
    var shift := |qs| - 1;
    forall i, j | 0 <= i < j < |rs|
      ensures Apart(rs[i], rs[j])
    {
      if i < k {
        assert rs[i] == ps[i];
        if j < k { assert rs[j] == ps[j]; }
        else if j < k + |qs| { assert rs[j] == qs[j - k] && Apart(ps[i], ps[k]); }
        else { assert rs[j] == ps[j - shift] && Apart(ps[i], ps[j - shift]); }
      } else if i < k + |qs| {
        assert rs[i] == qs[i - k];
        if j < k + |qs| { assert rs[j] == qs[j - k] && Apart(qs[i - k], qs[j - k]); }
        else { assert rs[j] == ps[j - shift] && Apart(ps[k], ps[j - shift]); }
      } else {
        assert rs[i] == ps[i - shift] && rs[j] == ps[j - shift] && Apart(ps[i - shift], ps[j - shift]);
      }
    }
  }

  lemma {:induction false} CountReplaced(ps: seq<Piece>, k: nat, qs: seq<Piece>, a: Allocation)
    requires k < |ps|
    ensures Count(Spliced(ps, k, qs), a) == Count(ps, a) - (if ps[k].owner == a then 1 else 0) + Count(qs, a)
  {
    CountConcat(ps[..k] + qs, ps[k + 1..], a);
    CountConcat(ps[..k], qs, a);
    assert ps == ps[..k] + [ps[k]] + ps[k + 1..];
    CountConcat(ps[..k] + [ps[k]], ps[k + 1..], a);
    CountConcat(ps[..k], [ps[k]], a);
    CountOne(ps[k], a);
  }

  /** What the list will be once the pieces from i on are cut as well. */
  function Outcome(ps: seq<Piece>, i: nat, start: nat, end: nat): seq<Piece>
    requires i <= |ps|
  {
    ps[..i] + CutAll(ps[i..], start, end)
  }

  /** Cutting piece i and moving past what is left of it does not change the outcome. */
  lemma {:induction false} CutOne(ps: seq<Piece>, i: nat, start: nat, end: nat)
    requires i < |ps|
    ensures var qs := Cut(ps[i], start, end); var rs := Spliced(ps, i, qs);
            |rs| - (i + |qs|) == |ps| - i - 1 && Outcome(rs, i + |qs|, start, end) == Outcome(ps, i, start, end)
  {
  }

  lemma {:induction false} OutcomeEnds(ps: seq<Piece>, start: nat, end: nat)
    ensures Outcome(ps, 0, start, end) == CutAll(ps, start, end)
    ensures Outcome(ps, |ps|, start, end) == ps
  {
  }

  lemma {:induction false} NoneSplitsOn(ps: seq<Piece>, i: nat, qs: seq<Piece>, start: nat, end: nat)
    requires i < |ps| && NoneSplits(ps, i, start, end)
    ensures NoneSplits(Spliced(ps, i, qs), i + |qs|, start, end)
  {
  }

  lemma {:induction false} OutcomeIsOk(ps: seq<Piece>, i: nat, start: nat, end: nat)
    requires AllOk(ps) && AllApart(ps) && i <= |ps|
    requires start % PAGE == 0 && end % PAGE == 0 && start < end
    ensures AllOk(Outcome(ps, i, start, end)) && AllApart(Outcome(ps, i, start, end))
    decreases |ps| - i
  {
    if i == |ps| {
      OutcomeEnds(ps, start, end);
    } else {
      var qs := Cut(ps[i], start, end);
      CutIsParts(ps[i], start, end);
      ReplacedIsOk(ps, i, qs);
      CutOne(ps, i, start, end);
      OutcomeIsOk(Spliced(ps, i, qs), i + |qs|, start, end);
    }
  }

  /** Unmapping keeps every piece aligned, non-empty, inside its allocation and apart from the others. */
  lemma {:induction false} CutAllIsOk(ps: seq<Piece>, start: nat, end: nat)
    requires AllOk(ps) && AllApart(ps)
    requires start % PAGE == 0 && end % PAGE == 0 && start < end
    ensures AllOk(CutAll(ps, start, end)) && AllApart(CutAll(ps, start, end))
  {
    OutcomeIsOk(ps, 0, start, end);
    OutcomeEnds(ps, start, end);
  }
}
