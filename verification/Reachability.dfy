/** The reload-reachability predicate: a search per root that stops early, and one search from all
    roots at once, decide the same question on every finite graph. */
module Reachability {
  import opened Common

  type Graph = seq<seq<nat>>

  ghost predicate IsGraph(edges: Graph) {
    forall x, k :: 0 <= x < |edges| && 0 <= k < |edges[x]| ==> edges[x][k] < |edges|
  }

  predicate Edge(edges: Graph, x: nat, y: nat) {
    x < |edges| && y in edges[x]
  }

  /** A path that never touches the avoided node, its ends included. */
  ghost predicate Path(edges: Graph, p: seq<nat>, avoid: nat) {
    && |p| > 0 && (forall i :: 0 <= i < |p| ==> p[i] != avoid)
    && forall i {:trigger Edge(edges, p[i - 1], p[i])} :: 0 < i < |p| ==> Edge(edges, p[i - 1], p[i])
  }

  ghost predicate Reaches(edges: Graph, root: nat, target: nat, avoid: nat) {
    exists p :: Connects(edges, p, root, target, avoid)
  }

  ghost predicate Connects(edges: Graph, p: seq<nat>, root: nat, target: nat, avoid: nat) {
    Path(edges, p, avoid) && p[0] == root && p[|p| - 1] == target
  }

  ghost predicate AnyReaches(edges: Graph, roots: set<nat>, target: nat, avoid: nat) {
    exists root :: root in roots && Reaches(edges, root, target, avoid)
  }

  lemma {:induction false} ReachesSelf(edges: Graph, root: nat, avoid: nat)
    requires root != avoid
    ensures Reaches(edges, root, root, avoid)
  {
    var p := [root];
    assert Connects(edges, p, root, root, avoid);
  }

  lemma {:induction false} ReachesOn(edges: Graph, root: nat, x: nat, y: nat, avoid: nat)
    requires Reaches(edges, root, x, avoid) && Edge(edges, x, y) && y != avoid
    ensures Reaches(edges, root, y, avoid)
  {
    var p :| Connects(edges, p, root, x, avoid);
    var q := p + [y];
    forall i | 0 < i < |q|
      ensures Edge(edges, q[i - 1], q[i])
    {
      if i < |p| { assert Edge(edges, p[i - 1], p[i]); }
    }
    assert Connects(edges, q, root, y, avoid);
  }

  /** Every node that x leads to directly, but for the avoided one. */
  predicate Explored(edges: Graph, seen: set<nat>, x: nat, avoid: nat)
    requires x < |edges|
  {
    forall k :: 0 <= k < |edges[x]| ==> edges[x][k] == avoid || edges[x][k] in seen
  }

  /** A set closed under edges holds whatever its members reach. */
  lemma {:induction false} ClosedHoldsPaths(edges: Graph, seen: set<nat>, avoid: nat, p: seq<nat>)
    requires forall x :: x in seen ==> x < |edges|
    requires forall x {:trigger Explored(edges, seen, x, avoid)} :: x in seen ==> Explored(edges, seen, x, avoid)
    requires Path(edges, p, avoid) && p[0] in seen
    ensures p[|p| - 1] in seen
    decreases |p|
  {
    if |p| > 1 {
      var first := 1;
      assert Edge(edges, p[first - 1], p[first]) && Explored(edges, seen, p[0], avoid);
      var q := p[1..];
      forall i | 0 < i < |q|
        ensures Edge(edges, q[i - 1], q[i])
      {
        var j := i + 1;
        assert Edge(edges, p[j - 1], p[j]);
      }
      ClosedHoldsPaths(edges, seen, avoid, q);
    }
  }

  /** What both searches keep: everything seen is reachable, and explored unless still pending. */
  ghost predicate Searching(edges: Graph, roots: set<nat>, avoid: nat, seen: set<nat>, pending: seq<nat>) {
    && (forall x :: x in pending ==> x in seen)
    && (forall x :: x in seen ==> x < |edges| && x != avoid)
    && (forall x {:trigger AnyReaches(edges, roots, x, avoid)} :: x in seen ==> AnyReaches(edges, roots, x, avoid))
    && (forall x {:trigger Explored(edges, seen, x, avoid)} :: x in seen && x !in pending ==>
          Explored(edges, seen, x, avoid))
  }

  lemma {:induction false} SearchFinds(edges: Graph, roots: set<nat>, avoid: nat, seen: set<nat>, target: nat)
    requires Searching(edges, roots, avoid, seen, [])
    requires forall x :: x in roots && x != avoid ==> x in seen
    ensures target in seen <==> AnyReaches(edges, roots, target, avoid)
  {
    if AnyReaches(edges, roots, target, avoid) {
      var root :| root in roots && Reaches(edges, root, target, avoid);
      var p :| Connects(edges, p, root, target, avoid);
      assert p[0] != avoid;
      ClosedHoldsPaths(edges, seen, avoid, p);
    }
  }

  lemma {:induction false} Successor(edges: Graph, roots: set<nat>, avoid: nat, x: nat, k: nat)
    requires IsGraph(edges) && x < |edges| && AnyReaches(edges, roots, x, avoid)
    requires k < |edges[x]| && edges[x][k] != avoid
    ensures edges[x][k] < |edges| && AnyReaches(edges, roots, edges[x][k], avoid)
  {
    var root :| root in roots && Reaches(edges, root, x, avoid);
    ReachesOn(edges, root, x, edges[x][k], avoid);
  }

  lemma {:induction false} SizeOfNodes(n: nat, s: set<nat>)
    requires forall x :: x in s ==> x < n
    ensures |s| <= n
  {
    if n > 0 {
      SizeOfNodes(n - 1, s - {n - 1});
      assert s <= (s - {n - 1}) + {n - 1};
      if n - 1 in s {
        assert |s| == |s - {n - 1}| + 1;
      } else {
        assert s == s - {n - 1};
      }
    } else {
      assert s == {};
    }
  }

  lemma {:induction false} SeeOne(edges: Graph, roots: set<nat>, avoid: nat, seen: set<nat>, pending: seq<nat>,
                                  node: nat, y: nat)
    requires Searching(edges, roots, avoid, seen, pending + [node])
    requires y < |edges| && y != avoid && AnyReaches(edges, roots, y, avoid)
    ensures Searching(edges, roots, avoid, seen + {y}, pending + [y] + [node])
  {
    forall x | x in seen + {y} && x !in pending + [y] + [node]
      ensures Explored(edges, seen + {y}, x, avoid)
    {
      assert Explored(edges, seen, x, avoid);
    }
  }

  /** The body of either search: a popped node's successors become seen and pending. */
  method Visit(edges: Graph, avoid: nat, node: nat, seen: set<nat>, pending: seq<nat>, ghost roots: set<nat>)
    returns (seen': set<nat>, pending': seq<nat>)
    requires IsGraph(edges) && node in seen && Searching(edges, roots, avoid, seen, pending + [node])
    ensures Searching(edges, roots, avoid, seen', pending') && seen <= seen'
    ensures |seen'| > |seen| || (seen' == seen && pending' == pending)
    ensures forall x :: x in pending || (x in seen' && x !in seen) ==> x in pending'
  {
    seen', pending' := seen, pending;
    var k := 0;
    while k < |edges[node]|
      invariant 0 <= k <= |edges[node]| && seen <= seen'
      invariant |seen'| > |seen| || (seen' == seen && pending' == pending)
      invariant Searching(edges, roots, avoid, seen', pending' + [node])
      invariant forall x :: x in pending || (x in seen' && x !in seen) ==> x in pending'
      invariant forall i :: 0 <= i < k ==> edges[node][i] == avoid || edges[node][i] in seen'
    {
      var successor := edges[node][k];
      if successor != avoid && successor !in seen' {
        Successor(edges, roots, avoid, node, k);
        SeeOne(edges, roots, avoid, seen', pending', node, successor);
        seen', pending' := seen' + {successor}, pending' + [successor];
      }
      k := k + 1;
    }
  }

  /** The single search from all roots. */
  method UnionSearch(edges: Graph, roots: set<nat>, avoid: nat) returns (seen: set<nat>)
    requires IsGraph(edges) && forall x :: x in roots ==> x < |edges|
    ensures forall target: nat :: target in seen <==> AnyReaches(edges, roots, target, avoid)
  {
    seen := roots - {avoid};
    var pending := Listed(seen);
    forall x | x in seen
      ensures AnyReaches(edges, roots, x, avoid)
    {
      ReachesSelf(edges, x, avoid);
    }
    while |pending| > 0
      invariant Searching(edges, roots, avoid, seen, pending) && roots - {avoid} <= seen
      decreases |edges| - |seen|, |pending|
    {
      var node := pending[|pending| - 1];
      var rest := pending[..|pending| - 1];
      assert pending == rest + [node];
      ghost var before := seen;
      seen, pending := Visit(edges, avoid, node, seen, rest, roots);
      SizeOfNodes(|edges|, seen);
    }
    forall target: nat
      ensures target in seen <==> AnyReaches(edges, roots, target, avoid)
    {
      SearchFinds(edges, roots, avoid, seen, target);
    }
  }

  /** The members of a set in some order. */
  method Listed(s: set<nat>) returns (list: seq<nat>)
    ensures forall x :: x in list <==> x in s
  {
    list := [];
    var rest := s;
    while rest != {}
      invariant forall x :: x in s <==> x in list || x in rest
      decreases |rest|
    {
      var x :| x in rest;
      list, rest := list + [x], rest - {x};
    }
  }

  /** One root's search, which stops at the target. */
  method SearchFrom(edges: Graph, root: nat, target: nat, avoid: nat) returns (found: bool)
    requires IsGraph(edges) && root < |edges| && root != avoid
    ensures found <==> Reaches(edges, root, target, avoid)
  {
    var seen, pending := {root}, [root];
    ghost var roots := {root};
    ReachesSelf(edges, root, avoid);
    while |pending| > 0
      invariant Searching(edges, roots, avoid, seen, pending) && root in seen
      invariant target in seen ==> target in pending
      decreases |edges| - |seen|, |pending|
    {
      var node := pending[|pending| - 1];
      var rest := pending[..|pending| - 1];
      assert pending == rest + [node];
      if node == target {
        assert AnyReaches(edges, roots, node, avoid);
        return true;
      }
      seen, pending := Visit(edges, avoid, node, seen, rest, roots);
      SizeOfNodes(|edges|, seen);
    }
    SearchFinds(edges, roots, avoid, seen, target);
    found := false;
  }

  /** The per-root search. */
  method Original(edges: Graph, roots: seq<nat>, target: nat, avoid: nat) returns (found: bool)
    requires IsGraph(edges) && forall i :: 0 <= i < |roots| ==> roots[i] < |edges|
    ensures found <==> AnyReaches(edges, Members(roots), target, avoid)
  {
    var i := 0;
    while i < |roots|
      invariant 0 <= i <= |roots|
      invariant forall j :: 0 <= j < i ==> !Reaches(edges, roots[j], target, avoid)
    {
      if roots[i] != avoid {
        found := SearchFrom(edges, roots[i], target, avoid);
        if found {
          return;
        }
      }
      i := i + 1;
    }
    found := false;
  }

  /** The two agree for every target. */
  method Agree(edges: Graph, roots: seq<nat>, target: nat, avoid: nat) returns (original: bool, union: bool)
    requires IsGraph(edges) && forall i :: 0 <= i < |roots| ==> roots[i] < |edges|
    ensures original == union
  {
    original := Original(edges, roots, target, avoid);
    var seen := UnionSearch(edges, Members(roots), avoid);
    union := target in seen;
  }
}
