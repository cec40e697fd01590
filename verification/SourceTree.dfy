/** sync_tree: makes a destination tree equal to a source tree, leaving generated build trees alone. */
module SourceTree {

  type Path = seq<string>

  datatype Node = Dir | File(content: string, mode: nat) | Link(target: string)

  type Tree = map<Path, Node>

  const EXCLUDED: set<string> := {".git", "build", "out", "dl", "__pycache__"}

  /** Everything is below directories; the root itself is not listed. */
  ghost predicate WellFormed(t: Tree) {
    [] !in t && forall p {:trigger Parent(p)} :: p in t && |p| > 1 ==> Parent(p) in t && t[Parent(p)].Dir?
  }

  function Parent(p: Path): Path
    requires |p| > 0
  {
    p[..|p| - 1]
  }

  predicate Included(p: Path) {
    forall k :: 0 <= k < |p| ==> p[k] !in EXCLUDED
  }

  /** How many components come before the first excluded one. */
  function BaseLength(p: Path): (n: nat)
    ensures n <= |p|
    ensures forall k :: 0 <= k < n ==> p[k] !in EXCLUDED
    ensures n < |p| ==> p[n] in EXCLUDED
  {
    if |p| == 0 || p[0] in EXCLUDED then 0 else 1 + BaseLength(p[1..])
  }

  function Base(p: Path): Path {
    p[..BaseLength(p)]
  }

  /** What the walk lists. */
  function Entries(t: Tree): set<Path> {
    set p | p in t && Included(p)
  }

  lemma {:induction false} PrefixIsDir(t: Tree, p: Path, n: nat)
    requires WellFormed(t) && p in t && 0 < n < |p|
    ensures p[..n] in t && t[p[..n]].Dir?
    decreases |p|
  {
    assert Parent(p) in t && t[Parent(p)].Dir?;
    if n < |p| - 1 {
      PrefixIsDir(t, Parent(p), n);
      assert Parent(p)[..n] == p[..n];
    }
  }

  /** Only directories have anything below them. */
  lemma {:induction false} LeafHasNothingBelow(t: Tree, x: Path, p: Path)
    requires WellFormed(t) && x in t && !t[x].Dir? && p in t && x <= p
    ensures p == x
  {
    if |x| < |p| {
      assert p[..|x|] == x;
      if |x| > 0 { PrefixIsDir(t, p, |x|); }
    }
  }

  // ----- What a synchronised tree is -----

  /** An excluded entry stays if the directory it is generated in exists on both sides. */
  predicate Survives(source: Tree, p: Path) {
    !Included(p) && (Base(p) == [] || (Base(p) in source && source[Base(p)].Dir?))
  }

  /** The destination afterwards: included entries as in the source, surviving excluded ones as before. */
  ghost predicate Synced(source: Tree, before: Tree, after: Tree) {
    forall p {:trigger p in after} ::
      && (p in after <==> (Included(p) && p in source) || (p in before && Survives(source, p)))
      && (p in after ==> after[p] == if Included(p) then source[p] else before[p])
  }

  /** Nothing left to do. */
  ghost predicate InSync(source: Tree, t: Tree) {
    forall p {:trigger p in t} :: Included(p) ==> (p in t <==> p in source) && (p in t ==> t[p] == source[p])
  }

  /** Synchronising leaves nothing to do. */
  lemma {:induction false} SyncedIsInSync(source: Tree, before: Tree, after: Tree)
    requires Synced(source, before, after)
    ensures InSync(source, after)
  {
  }

  // ----- Steps -----

  /** Removing a path with everything below it. */
  function Without(t: Tree, x: Path): Tree {
    map p | p in t && !(x <= p) :: t[p]
  }

  lemma {:induction false} WithoutWellFormed(t: Tree, x: Path)
    requires WellFormed(t)
    ensures WellFormed(Without(t, x))
  {
  }

  /** remove */
  method Remove(t: Tree, x: Path) returns (u: Tree)
    requires WellFormed(t) && x in t
    ensures u == Without(t, x) && WellFormed(u)
  {
    WithoutWellFormed(t, x);
    if t[x].Dir? {
      u := Without(t, x);
    } else {
      u := t - {x};
      forall p | p in t && x <= p ensures p == x { LeafHasNothingBelow(t, x, p); }
    }
  }

  /** What one wanted entry does to the destination. */
  function Placed(t: Tree, p: Path, node: Node): Tree {
    if node.Dir? && p in t && t[p].Dir? then t else Without(t, p)[p := node]
  }

  lemma {:induction false} LeafAlone(t: Tree, p: Path, node: Node)
    requires WellFormed(t) && (p !in t || !t[p].Dir?) && |p| > 0 && (p in t || forall q :: q in t ==> !(p <= q))
    ensures Without(t, p)[p := node] == t[p := node]
  {
    if p in t {
      forall q | q in t && p <= q ensures q == p { LeafHasNothingBelow(t, p, q); }
    }
  }

  lemma {:induction false} PrefixListed(t: Tree, q: Path, p: Path)
    requires WellFormed(t) && q in t && p <= q && |p| > 0
    ensures p in t
  {
    if |p| < |q| {
      PrefixIsDir(t, q, |p|);
      assert q[..|p|] == p;
    } else {
      assert p == q;
    }
  }

  lemma {:induction false} NothingBelowMissing(t: Tree, p: Path)
    requires WellFormed(t) && p !in t && |p| > 0
    ensures forall q :: q in t ==> !(p <= q)
  {
    forall q | q in t
      ensures p <= q ==> p in t
    {
      if p <= q { PrefixListed(t, q, p); }
    }
  }

  /** The body of the second loop. */
  method Place(t: Tree, p: Path, node: Node) returns (u: Tree, changed: bool)
    requires WellFormed(t) && |p| > 0
    ensures u == Placed(t, p, node)
    ensures !changed ==> u == t
    ensures p in t && t[p] == node ==> !changed
  {
    u, changed := t, false;
    if p !in t {
      NothingBelowMissing(t, p);
    }
    if node.Link? {
      if p in t && t[p].Link? && t[p].target == node.target {
        LeafAlone(t, p, node);
        return;
      }
      if p in t {
        u := Remove(t, p);
      } else {
        assert Without(t, p) == t;
      }
      u, changed := u[p := node], true;
    } else if node.Dir? {
      if p in t && !t[p].Dir? {
        u := Remove(t, p);
        changed := true;
      }
      if p !in u {
        assert p !in t ==> Without(t, p) == t;
        u, changed := u[p := Dir], true;
      }
    } else {
      if p in t && !t[p].File? {
        u := Remove(t, p);
        changed := true;
      }
      if p !in u || u[p].content != node.content || u[p].mode != node.mode {
        if p in u { LeafAlone(t, p, node); } else { assert p !in t ==> Without(t, p) == t; }
        u, changed := u[p := node], true;
      } else {
        LeafAlone(t, p, node);
      }
    }
  }

  // ----- Loops -----

  /** The members of a set, the shorter paths first. */
  method ByDepth(paths: set<Path>) returns (list: seq<Path>)
    ensures forall p :: p in paths <==> p in list
    ensures forall i, j :: 0 <= i < j < |list| ==> |list[i]| <= |list[j]|
    ensures forall i, j :: 0 <= i < j < |list| ==> list[i] != list[j]
  {
    list := [];
    var rest := paths;
    while rest != {}
      invariant forall p :: p in paths <==> p in list || p in rest
      invariant forall p, i :: p in rest && 0 <= i < |list| ==> list[i] != p && |list[i]| <= |p|
      invariant forall i, j :: 0 <= i < j < |list| ==> |list[i]| <= |list[j]|
      invariant forall i, j :: 0 <= i < j < |list| ==> list[i] != list[j]
      decreases |rest|
    {
      var p := Shortest(rest);
      list, rest := list + [p], rest - {p};
    }
  }

  method Shortest(paths: set<Path>) returns (p: Path)
    requires paths != {}
    ensures p in paths && forall q :: q in paths ==> |p| <= |q|
  {
    var first :| first in paths;
    p := first;
    var rest := paths - {first};
    while rest != {}
      invariant p in paths && rest <= paths
      invariant forall q :: q in paths && q !in rest ==> |p| <= |q|
      decreases |rest|
    {
      var q :| q in rest;
      rest := rest - {q};
      if |q| < |p| {
        p := q;
      }
    }
  }

  /** t is what is left of before once xs[k..] and everything below them is gone. */
  ghost predicate Pruned(before: Tree, t: Tree, xs: seq<Path>, k: nat) {
    forall p {:trigger p in t} ::
      && (p in t <==> p in before && !Covered(xs, k, p))
      && (p in t ==> t[p] == before[p])
  }

  /** One of xs[k..] is p or above it. */
  ghost predicate Covered(xs: seq<Path>, k: nat, p: Path) {
    exists j :: k <= j < |xs| && xs[j] <= p
  }

  /** The first loop: removes what the source no longer has, deepest first. */
  method Prune(before: Tree, xs: seq<Path>) returns (t: Tree, changes: nat)
    requires WellFormed(before)
    requires forall i :: 0 <= i < |xs| ==> xs[i] in before
    ensures WellFormed(t) && Pruned(before, t, xs, 0)
    ensures |xs| == 0 ==> changes == 0
    ensures changes == 0 ==> t == before
  {
    t, changes := before, 0;
    var k := |xs|;
    while k > 0
      invariant 0 <= k <= |xs| && WellFormed(t) && Pruned(before, t, xs, k)
      invariant |xs| == 0 ==> changes == 0
      invariant changes == 0 ==> t == before
    {
      k := k - 1;
      CoveredNext(xs, k);
      if xs[k] in t {
        t := Remove(t, xs[k]);
        changes := changes + 1;
      } else {
        forall p | p in t ensures !(xs[k] <= p) { if xs[k] <= p && |xs[k]| > 0 { PrefixListed(t, p, xs[k]); } }
      }
    }
  }

  lemma {:induction false} CoveredNext(xs: seq<Path>, k: nat)
    requires k < |xs|
    ensures forall p :: Covered(xs, k, p) <==> xs[k] <= p || Covered(xs, k + 1, p)
  {
  }

  /** One of ws[..k] is p or above it and is not a directory in the source. */
  ghost predicate Cut(source: Tree, ws: seq<Path>, k: nat, p: Path) {
    exists j :: 0 <= j < k <= |ws| && ws[j] in source && ws[j] <= p && !source[ws[j]].Dir?
  }

  /** Where the second loop stands. */
  ghost predicate Placing(source: Tree, start: Tree, t: Tree, ws: seq<Path>, k: nat) {
    && WellFormed(t) && k <= |ws|
    && (forall j :: 0 <= j < k ==> ws[j] in t && ws[j] in source && t[ws[j]] == source[ws[j]])
    && (forall p {:trigger Included(p)} :: p in t && Included(p) ==> p in source)
    && (forall p {:trigger Cut(source, ws, k, p)} :: !Included(p) ==>
          (p in t <==> p in start && !Cut(source, ws, k, p)))
    && (forall p :: !Included(p) && p in t ==> p in start && t[p] == start[p])
  }

  /** The wanted paths in the order of the second loop. */
  ghost predicate Wanted(source: Tree, ws: seq<Path>) {
    && (forall p :: p in ws <==> p in source && Included(p))
    && (forall i, j :: 0 <= i < j < |ws| ==> |ws[i]| <= |ws[j]|)
    && (forall i, j :: 0 <= i < j < |ws| ==> ws[i] != ws[j])
  }

  /** A wanted path's parent has been placed before it. */
  lemma {:induction false} ParentPlaced(source: Tree, start: Tree, t: Tree, ws: seq<Path>, k: nat)
    requires WellFormed(source) && Wanted(source, ws) && Placing(source, start, t, ws, k) && k < |ws| && |ws[k]| > 1
    ensures Parent(ws[k]) in t && t[Parent(ws[k])].Dir?
  {
    var w := ws[k];
    var parent := Parent(w);
    assert w in ws;
    assert parent in source && source[parent].Dir? && Included(parent);
    assert parent in ws;
    var j :| 0 <= j < |ws| && ws[j] == parent;
    assert |ws[j]| < |ws[k]| && j < k;
    assert t[ws[j]] == source[ws[j]];
  }

  lemma {:induction false} PlacedWellFormed(t: Tree, w: Path, node: Node)
    requires WellFormed(t) && |w| > 0 && (|w| > 1 ==> Parent(w) in t && t[Parent(w)].Dir?)
    ensures WellFormed(Placed(t, w, node))
  {
  }

  lemma {:induction false} EarlierKept(source: Tree, start: Tree, t: Tree, ws: seq<Path>, k: nat, j: nat)
    requires Wanted(source, ws) && Placing(source, start, t, ws, k) && j < k < |ws|
    ensures !(ws[k] <= ws[j])
  {
  }

  lemma {:induction false} CutNext(source: Tree, ws: seq<Path>, k: nat, p: Path)
    requires k < |ws| && ws[k] in source
    ensures Cut(source, ws, k + 1, p) <==> Cut(source, ws, k, p) || (ws[k] <= p && !source[ws[k]].Dir?)
  {
  }

  /** Placing a directory never removes anything below it. */
  lemma {:induction false} BelowPlaced(t: Tree, w: Path, node: Node, p: Path)
    requires WellFormed(t) && |w| > 0 && p != w
    ensures p in Placed(t, w, node) <==> p in t && !(w <= p && !node.Dir?)
    ensures p in Placed(t, w, node) ==> Placed(t, w, node)[p] == t[p]
  {
    if p in t && w <= p {
      PrefixListed(t, p, w);
      if node.Dir? && !t[w].Dir? { LeafHasNothingBelow(t, w, p); }
    }
  }

  lemma {:induction false} PlacingStep(source: Tree, start: Tree, t: Tree, ws: seq<Path>, k: nat)
    requires WellFormed(source) && Wanted(source, ws) && Placing(source, start, t, ws, k) && k < |ws|
    ensures ws[k] in source && |ws[k]| > 0
    ensures Placing(source, start, Placed(t, ws[k], source[ws[k]]), ws, k + 1)
  {
    var w := ws[k];
    assert w in ws;
    var node := source[w];
    var u := Placed(t, w, node);
    if |w| > 1 { ParentPlaced(source, start, t, ws, k); }
    PlacedWellFormed(t, w, node);
    forall j | 0 <= j < k + 1
      ensures ws[j] in u && ws[j] in source && u[ws[j]] == source[ws[j]]
    {
      if j < k {
        EarlierKept(source, start, t, ws, k, j);
        BelowPlaced(t, w, node, ws[j]);
      }
    }
    forall p | p != w
      ensures p in u <==> p in t && !(w <= p && !node.Dir?)
      ensures p in u ==> u[p] == t[p]
    {
      BelowPlaced(t, w, node, p);
    }
    forall p | !Included(p)
      ensures p in u <==> p in start && !Cut(source, ws, k + 1, p)
    {
      CutNext(source, ws, k, p);
      assert p in t <==> p in start && !Cut(source, ws, k, p);
    }
  }

  /** The two loops together keep exactly the excluded entries that survive. */
  lemma {:induction false} SurvivesExactly(source: Tree, before: Tree, xs: seq<Path>, ws: seq<Path>, p: Path)
    requires WellFormed(source) && WellFormed(before) && Wanted(source, ws) && p in before && !Included(p)
    requires forall x :: x in xs <==> x in before && Included(x) && x !in source
    ensures !Covered(xs, 0, p) && !Cut(source, ws, |ws|, p) <==> Survives(source, p)
  {
    var n, q := BaseLength(p), Base(p);
    assert n < |p|;
    if n > 0 {
      PrefixIsDir(before, p, n);
      assert Included(q) && q <= p;
      if q !in source {
        assert q in xs;
        var j :| 0 <= j < |xs| && xs[j] == q;
        assert Covered(xs, 0, p);
      } else if !source[q].Dir? {
        assert q in ws;
        var j :| 0 <= j < |ws| && ws[j] == q;
        assert Cut(source, ws, |ws|, p);
      }
    }
    if Survives(source, p) {
      forall x | x <= p && Included(x) && |x| > 0
        ensures x in source && source[x].Dir?
      {
        ShorterThanBase(p, x);
        if x != q { PrefixIsDir(source, q, |x|); assert q[..|x|] == x; }
      }
      assert forall j :: 0 <= j < |xs| ==> xs[j] in xs;
      assert forall j :: 0 <= j < |ws| ==> ws[j] in ws;
    }
  }

  lemma {:induction false} ShorterThanBase(p: Path, x: Path)
    requires x <= p && Included(x)
    ensures |x| <= BaseLength(p) && x == Base(p)[..|x|]
  {
  }

  lemma {:induction false} NothingObsolete(source: Tree, before: Tree, xs: seq<Path>)
    requires forall x :: x in xs <==> x in before && Included(x) && x !in source
    ensures forall i :: 0 <= i < |xs| ==> xs[i] in before
    ensures InSync(source, before) ==> |xs| == 0
  {
    forall i | 0 <= i < |xs|
      ensures xs[i] in before && !InSync(source, before)
    {
      assert xs[i] in xs;
    }
    if |xs| > 0 { assert xs[0] in before; }
  }

  lemma {:induction false} PlacingStarts(source: Tree, before: Tree, xs: seq<Path>, start: Tree, ws: seq<Path>)
    requires WellFormed(start) && Pruned(before, start, xs, 0)
    requires forall x :: x in xs <==> x in before && Included(x) && x !in source
    ensures Placing(source, start, start, ws, 0)
  {
  }

  /** sync_tree, for trees that do not overlap. */
  method SyncTree(source: Tree, destination: Tree) returns (t: Tree, changes: nat)
    requires WellFormed(source) && WellFormed(destination)
    ensures Synced(source, destination, t) && WellFormed(t)
    ensures InSync(source, destination) ==> changes == 0
    ensures changes == 0 ==> t == destination
  {
    var wanted := Entries(source);
    var obsolete := Entries(destination) - wanted;
    var xs := ByDepth(obsolete);
    assert forall x :: x in xs <==> x in obsolete;
    NothingObsolete(source, destination, xs);
    t, changes := Prune(destination, xs);
    var ws := ByDepth(wanted);
    PlacingStarts(source, destination, xs, t, ws);
    ghost var start := t;
    var more;
    t, more := PlaceAll(source, t, ws);
    changes := changes + more;
    PlacingEnds(source, destination, xs, start, t, ws);
  }

  /** Running it again changes nothing. */
  method SyncTwice(source: Tree, destination: Tree) returns (t: Tree, changes: nat)
    requires WellFormed(source) && WellFormed(destination)
    ensures Synced(source, destination, t) && changes == 0
  {
    var once, ignored := SyncTree(source, destination);
    SyncedIsInSync(source, destination, once);
    t, changes := SyncTree(source, once);
  }

  /** The second loop. */
  method PlaceAll(source: Tree, start: Tree, ws: seq<Path>) returns (t: Tree, changes: nat)
    requires WellFormed(source) && Wanted(source, ws) && Placing(source, start, start, ws, 0)
    ensures Placing(source, start, t, ws, |ws|)
    ensures InSync(source, start) ==> changes == 0
    ensures changes == 0 ==> t == start
  {
    t, changes := start, 0;
    var k := 0;
    while k < |ws|
      invariant 0 <= k <= |ws| && Placing(source, start, t, ws, k)
      invariant InSync(source, start) ==> changes == 0
      invariant changes == 0 ==> t == start
    {
      var changed;
      t, changed := PlaceNext(source, start, t, ws, k);
      if changed {
        changes := changes + 1;
      }
      k := k + 1;
    }
  }

  method PlaceNext(source: Tree, ghost start: Tree, t: Tree, ws: seq<Path>, k: nat) returns (u: Tree, changed: bool)
    requires WellFormed(source) && Wanted(source, ws) && Placing(source, start, t, ws, k) && k < |ws|
    ensures Placing(source, start, u, ws, k + 1)
    ensures InSync(source, t) ==> !changed
    ensures !changed ==> u == t
  {
    PlacingStep(source, start, t, ws, k);
    AlreadyThere(source, t, ws, k);
    u, changed := Place(t, ws[k], source[ws[k]]);
  }

  lemma {:induction false} AlreadyThere(source: Tree, t: Tree, ws: seq<Path>, k: nat)
    requires Wanted(source, ws) && k < |ws|
    ensures ws[k] in source
    ensures InSync(source, t) ==> ws[k] in t && t[ws[k]] == source[ws[k]]
  {
  }

  lemma {:induction false} PlacingEnds(source: Tree, before: Tree, xs: seq<Path>, start: Tree, t: Tree, ws: seq<Path>)
    requires WellFormed(source) && WellFormed(before) && Wanted(source, ws)
    requires forall x :: x in xs <==> x in before && Included(x) && x !in source
    requires Pruned(before, start, xs, 0) && Placing(source, start, t, ws, |ws|)
    ensures Synced(source, before, t)
  {
    forall p
      ensures p in t <==> (Included(p) && p in source) || (p in before && Survives(source, p))
      ensures p in t ==> t[p] == if Included(p) then source[p] else before[p]
    {
      if Included(p) {
        if p in source {
          assert p in ws;
          var j :| 0 <= j < |ws| && ws[j] == p;
        }
      } else {
        if p in before { SurvivesExactly(source, before, xs, ws, p); }
        assert p in t <==> p in start && !Cut(source, ws, |ws|, p);
        assert p in start <==> p in before && !Covered(xs, 0, p);
      }
    }
  }
}
