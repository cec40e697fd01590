/** Absolute paths as lists of components, and what the textual prefix test and join do to them. */
module MountPaths {
  import opened Bytes

  type Path = seq<seq<byte>>

  predicate NoSlash(c: seq<byte>) {
    SLASH !in c
  }

  /** Components without slashes, the last one not empty: what the kernel reports, including names
      such as "/a//deleted". */
  predicate Clean(cs: Path) {
    (forall k :: 0 <= k < |cs| ==> NoSlash(cs[k])) && (cs != [] ==> cs[|cs| - 1] != [])
  }

  function Flat(cs: Path): seq<byte> {
    if cs == [] then [] else [SLASH] + cs[0] + Flat(cs[1..])
  }

  function Text(cs: Path): seq<byte> {
    if cs == [] then [SLASH] else Flat(cs)
  }

  /** A text for a path; joining can leave one slash at its end. */
  predicate Names(t: seq<byte>, cs: Path) {
    t == Text(cs) || (cs != [] && t == Flat(cs + [[]]))
  }

  /** Empty, or starting with a slash. */
  predicate Remainder(s: seq<byte>) {
    |s| == 0 || s[0] == SLASH
  }

  lemma {:induction false} FlatIsRemainder(cs: Path)
    ensures Remainder(Flat(cs))
    ensures |Flat(cs)| == 0 <==> cs == []
  {
  }

  lemma {:induction false} FlatConcat(a: Path, b: Path)
    ensures Flat(a + b) == Flat(a) + Flat(b)
    decreases |a|
  {
    if a == [] {
      assert a + b == b;
    } else {
      FlatConcat(a[1..], b);
      assert (a + b)[1..] == a[1..] + b;
    }
  }

  function FirstSlash(s: seq<byte>): (n: nat)
    ensures n <= |s|
  {
    if |s| == 0 || s[0] == SLASH then 0 else 1 + FirstSlash(s[1..])
  }

  lemma {:induction false} FirstSlashAfter(a: seq<byte>, x: seq<byte>)
    requires NoSlash(a) && Remainder(x)
    ensures FirstSlash(a + x) == |a|
    decreases |a|
  {
    if |a| == 0 {
      assert a + x == x;
    } else {
      assert a == [a[0]] + a[1..] && NoSlash(a[1..]);
      FirstSlashAfter(a[1..], x);
      assert (a + x)[1..] == a[1..] + x;
    }
  }

  /** A component ends where the next slash is. */
  lemma {:induction false} SameComponent(a: seq<byte>, x: seq<byte>, b: seq<byte>, y: seq<byte>)
    requires NoSlash(a) && NoSlash(b) && Remainder(x) && Remainder(y) && a + x == b + y
    ensures a == b && x == y
  {
    FirstSlashAfter(a, x);
    FirstSlashAfter(b, y);
    assert (a + x)[..|a|] == a && (b + y)[..|b|] == b;
    assert (a + x)[|a|..] == x && (b + y)[|b|..] == y;
  }

  lemma {:induction false} FlatPrefix(ps: Path, cs: Path, tail: seq<byte>)
    requires (forall k :: 0 <= k < |ps| ==> NoSlash(ps[k])) && (forall k :: 0 <= k < |cs| ==> NoSlash(cs[k]))
    requires Flat(cs) == Flat(ps) + tail && Remainder(tail)
    ensures ps <= cs && tail == Flat(cs[|ps|..])
    decreases |ps|
  {
    FlatIsRemainder(ps);
    FlatIsRemainder(cs);
    if ps == [] {
      assert Flat(ps) + tail == tail && cs[0..] == cs;
    } else {
      assert cs != [];
      var p, c := ps[0], cs[0];
      var x, y := Flat(ps[1..]) + tail, Flat(cs[1..]);
      FlatIsRemainder(ps[1..]);
      FlatIsRemainder(cs[1..]);
      assert Flat(ps) + tail == [SLASH] + (p + x) && Flat(cs) == [SLASH] + (c + y);
      assert (p + x) == ([SLASH] + (p + x))[1..] && (c + y) == ([SLASH] + (c + y))[1..];
      SameComponent(p, x, c, y);
      FlatPrefix(ps[1..], cs[1..], tail);
      assert ps == [p] + ps[1..] && cs == [c] + cs[1..];
      assert cs[1..][|ps| - 1..] == cs[|ps|..];
    }
  }

  /** path_under */
  predicate Under(path: seq<byte>, prefix: seq<byte>) {
    var n := |prefix|;
    if n == 1 && prefix[0] == SLASH then |path| > 0 && path[0] == SLASH
    else n > 0 && |path| >= n && path[..n] == prefix && (|path| == n || path[n] == SLASH)
  }

  lemma {:induction false} UnderFlat(cs: Path, ps: Path)
    requires ps != [] && ps != [[]]
    requires forall k :: 0 <= k < |ps| ==> NoSlash(ps[k])
    requires forall k :: 0 <= k < |cs| ==> NoSlash(cs[k])
    ensures Under(Flat(cs), Flat(ps)) <==> ps <= cs
  {
    var path, prefix := Flat(cs), Flat(ps);
    FlatIsRemainder(ps);
    NotRoot(ps);
    if Under(path, prefix) {
      FlatPrefix(ps, cs, path[|prefix|..]);
    }
    if ps <= cs {
      assert cs == ps + cs[|ps|..];
      FlatConcat(ps, cs[|ps|..]);
      FlatIsRemainder(cs[|ps|..]);
    }
  }

  lemma {:induction false} NotRoot(ps: Path)
    requires ps != [] && ps != [[]]
    ensures |Flat(ps)| > 1
  {
  }

  /** A prefix that ends in a slash holds no path below it: the test wants a second slash there. */
  lemma {:induction false} SlashedPrefixHolds(cs: Path, ps: Path)
    requires Clean(cs) && Clean(ps) && ps != []
    ensures Under(Text(cs), Flat(ps + [[]])) <==> ps + [[]] <= cs
  {
    if cs == [] {
      NotRoot(ps + [[]]);
    } else {
      UnderFlat(cs, ps + [[]]);
    }
  }

  /** The textual test decides the prefix relation on components. */
  lemma {:induction false} UnderIsPrefix(t: seq<byte>, cs: Path, ps: Path)
    requires Clean(cs) && Clean(ps) && Names(t, cs)
    ensures Under(t, Text(ps)) <==> ps <= cs
  {
    FlatIsRemainder(cs);
    FlatIsRemainder(cs + [[]]);
    if ps == [] {
      assert Under(t, Text(ps));
    } else if cs == [] {
      NotRoot(ps);
    } else if t == Text(cs) {
      UnderFlat(cs, ps);
    } else {
      UnderFlat(cs + [[]], ps);
      assert (cs + [[]])[|cs|] == [];
    }
  }

  /** What is left of a path's text behind a prefix, as the code cuts it off. */
  function Rest(t: seq<byte>, prefix: seq<byte>): seq<byte>
    requires |prefix| <= |t|
  {
    if prefix == [SLASH] then t else t[|prefix|..]
  }

  /** join_path without its size limit. */
  function Joined(base: seq<byte>, rest: seq<byte>): seq<byte> {
    if base == [SLASH] then (if |rest| > 0 then rest else [SLASH]) else base + rest
  }

  lemma {:induction false} LoneSlash()
    ensures Flat([[]]) == [SLASH]
  {
  }

  lemma {:induction false} TextIsRoot(cs: Path)
    requires Clean(cs)
    ensures Text(cs) == [SLASH] <==> cs == []
  {
    if cs != [] { NotRoot(cs); }
  }

  /** What Rest yields: the text of the remaining components, or that and a slash. */
  lemma {:induction false} RestNames(t: seq<byte>, cs: Path, ps: Path)
    requires Clean(cs) && Clean(ps) && Names(t, cs) && ps <= cs
    ensures |Text(ps)| <= |t|
    ensures var r := Rest(t, Text(ps)); r == Flat(cs[|ps|..]) || r == Flat(cs[|ps|..] + [[]])
  {
    TextIsRoot(ps);
    var left := cs[|ps|..];
    if ps == [] {
      RestBelowRoot(t, cs);
    } else {
      assert cs == ps + left && cs + [[]] == ps + (left + [[]]);
      FlatConcat(ps, left);
      FlatConcat(ps, left + [[]]);
      CutOff(Flat(ps), Flat(left));
      CutOff(Flat(ps), Flat(left + [[]]));
    }
  }

  lemma {:induction false} RestBelowRoot(t: seq<byte>, cs: Path)
    requires Names(t, cs)
    ensures t == Flat(cs[0..]) || t == Flat(cs[0..] + [[]])
    ensures |t| >= 1
  {
  }

  lemma {:induction false} CutOff(a: seq<byte>, b: seq<byte>)
    ensures (a + b)[|a|..] == b
  {
  }

  /** Joining a remainder to a base puts its components below the base's. */
  lemma {:induction false} JoinNames(bs: Path, left: Path, r: seq<byte>)
    requires Clean(bs) && (r == Flat(left) || r == Flat(left + [[]]))
    ensures Names(Joined(Text(bs), r), bs + left)
  {
    TextIsRoot(bs);
    if bs == [] {
      assert bs + left == left;
      FlatIsRemainder(left);
      FlatIsRemainder(left + [[]]);
      if left == [] {
        LoneSlash();
        assert left + [[]] == [[]];
      }
    } else {
      FlatConcat(bs, left);
      FlatConcat(bs, left + [[]]);
      assert bs + (left + [[]]) == (bs + left) + [[]];
    }
  }

  lemma {:induction false} CleanConcat(bs: Path, cs: Path, n: nat)
    requires Clean(bs) && Clean(cs) && n <= |cs|
    ensures Clean(bs + cs[n..])
  {
  }

  /** Cutting a prefix off and joining the remainder to another base moves the remaining components
      below that base. */
  lemma {:induction false} JoinMoves(t: seq<byte>, cs: Path, ps: Path, bs: Path)
    requires Clean(cs) && Clean(ps) && Clean(bs) && Names(t, cs) && ps <= cs
    ensures |Text(ps)| <= |t|
    ensures Names(Joined(Text(bs), Rest(t, Text(ps))), bs + cs[|ps|..]) && Clean(bs + cs[|ps|..])
  {
    RestNames(t, cs, ps);
    JoinNames(bs, cs[|ps|..], Rest(t, Text(ps)));
    CleanConcat(bs, cs, |ps|);
  }

  lemma {:induction false} BeforeFirstSlash(s: seq<byte>)
    ensures var n := FirstSlash(s); NoSlash(s[..n]) && Remainder(s[n..])
    decreases |s|
  {
    var n := FirstSlash(s);
    if n == 0 {
      assert s[0..] == s && s[..0] == [];
    } else {
      BeforeFirstSlash(s[1..]);
      assert s[..n] == [s[0]] + s[1..][..n - 1] && s[n..] == s[1..][n - 1..];
    }
  }

  /** Every absolute path that does not end in a slash has components. */
  lemma {:induction false} EveryPathHasComponents(t: seq<byte>) returns (cs: Path)
    requires |t| > 0 && t[0] == SLASH && (|t| == 1 || t[|t| - 1] != SLASH)
    ensures Clean(cs) && Text(cs) == t
    decreases |t|
  {
    if |t| == 1 {
      cs := [];
      assert t == [SLASH];
    } else {
      var body := t[1..];
      var n := FirstSlash(body);
      BeforeFirstSlash(body);
      var c, rest := body[..n], body[n..];
      assert t == [SLASH] + c + rest;
      if |rest| == 0 {
        cs := [c];
        assert cs[1..] == [] && Flat(cs) == [SLASH] + c + [] == t;
      } else {
        assert rest[|rest| - 1] == t[|t| - 1];
        var more := EveryPathHasComponents(rest);
        TextIsRoot(more);
        cs := [c] + more;
        assert cs[1..] == more && Flat(cs) == [SLASH] + c + Flat(more);
      }
    }
  }
}
