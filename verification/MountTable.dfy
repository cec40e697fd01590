/** Whether something at one path can also be reached below a shared directory, through any mount
    of the same device. */
module MountTable {
  import opened Bytes
  import opened Common
  import opened MountPaths

  const BACKSLASH: byte := 92
  const ZERO: byte := 48
  const SEVEN: byte := 55
  const LIMIT: nat := 8192

  // ----- The kernel's escapes -----

  /** How the kernel writes a name: any byte may be escaped, a backslash always is. */
  function EscapeByte(b: byte, escape: bool): seq<byte> {
    if escape || b == BACKSLASH then [BACKSLASH, ZERO + b / 64, ZERO + b / 8 % 8, ZERO + b % 8] else [b]
  }

  function Escape(s: seq<byte>, which: set<byte>): seq<byte> {
    if s == [] then [] else EscapeByte(s[0], s[0] in which) + Escape(s[1..], which)
  }

  predicate Octal(b: byte) {
    ZERO <= b <= SEVEN
  }

  function Digits(a: byte, b: byte, c: byte): int {
    (a - ZERO) * 64 + (b - ZERO) * 8 + (c - ZERO)
  }

  /** Decoding: nothing for a malformed escape or an escaped zero. */
  function Unescape(s: seq<byte>): Option<seq<byte>> {
    if |s| == 0 then Some([])
    else if s[0] != BACKSLASH then Prepend(s[0], Unescape(s[1..]))
    else if |s| < 4 || !Octal(s[1]) || !Octal(s[2]) || !Octal(s[3]) then None
    else
      var value := Digits(s[1], s[2], s[3]);
      if value == 0 || value > 255 then None else Prepend(value, Unescape(s[4..]))
  }

  lemma {:induction false} UnescapeFirst(b: byte, escape: bool, rest: seq<byte>)
    requires b != 0
    ensures Unescape(EscapeByte(b, escape) + rest) == Prepend(b, Unescape(rest))
  {
    var e := EscapeByte(b, escape);
    var s := e + rest;
    if escape || b == BACKSLASH {
      assert s[0] == BACKSLASH && s[1] == ZERO + b / 64 && s[2] == ZERO + b / 8 % 8 && s[3] == ZERO + b % 8;
      OctalDigits(b);
      assert s[4..] == rest;
    } else {
      assert s[0] == b && s[1..] == rest;
    }
  }

  lemma {:induction false} OctalDigits(b: byte)
    ensures Octal(ZERO + b / 64) && Octal(ZERO + b / 8 % 8) && Octal(ZERO + b % 8)
    ensures Digits(ZERO + b / 64, ZERO + b / 8 % 8, ZERO + b % 8) == b
  {
  }

  /** Decoding undoes the kernel's escaping, whichever bytes it escapes. */
  lemma {:induction false} UnescapeOfEscape(s: seq<byte>, which: set<byte>)
    requires 0 !in s
    ensures Unescape(Escape(s, which)) == Some(s)
    decreases |s|
  {
    if s != [] {
      assert s == [s[0]] + s[1..];
      UnescapeOfEscape(s[1..], which);
      UnescapeFirst(s[0], s[0] in which, Escape(s[1..], which));
    }
  }

  /** Where in-place decoding stands: the text before `put` is decoded, the text from `get` on is not. */
  ghost predicate Decoding(all: seq<byte>, now: seq<byte>, get: nat, put: nat) {
    && put <= get <= |all| == |now| && now[get..] == all[get..]
    && Onto(now[..put], Unescape(all[get..])) == Unescape(all)
  }

  /** One byte decoded: it was written over a byte already read. */
  lemma {:induction false} DecodeOne(all: seq<byte>, now: seq<byte>, get: nat, put: nat, b: byte, n: nat)
    requires Decoding(all, now, get, put) && 0 < n <= |all| - get
    requires Unescape(all[get..]) == Prepend(b, Unescape(all[get + n..]))
    ensures Decoding(all, now[put := b], get + n, put + 1)
  {
    var next := now[put := b];
    assert next[..put + 1] == now[..put] + [b];
    assert next[get + n..] == now[get..][n..] == all[get + n..];
    OntoPrepend(now[..put], b, Unescape(all[get + n..]));
  }

  /** The escape at index get, read no further than its first wrong digit. */
  method ReadEscape(text: array<byte>, n: nat, get: nat) returns (value: int)
    requires get < n < text.Length && text[n] == 0 && text[get] == BACKSLASH
    ensures var s := text[get..n];
            value == if |s| < 4 || !Octal(s[1]) || !Octal(s[2]) || !Octal(s[3]) then -1 else Digits(s[1], s[2], s[3])
  {
    value := 0;
    var i := 1;
    while i <= 3
      invariant 1 <= i <= 4 && get + i <= n
      invariant (i > 1 ==> Octal(text[get + 1])) && (i > 2 ==> Octal(text[get + 2])) && (i > 3 ==> Octal(text[get + 3]))
      invariant value == if i == 1 then 0 else if i == 2 then text[get + 1] - ZERO
                         else if i == 3 then (text[get + 1] - ZERO) * 8 + (text[get + 2] - ZERO)
                         else Digits(text[get + 1], text[get + 2], text[get + 3])
    {
      if text[get + i] < ZERO || text[get + i] > SEVEN {
        return -1;
      }
      value := value * 8 + text[get + i] - ZERO;
      i := i + 1;
    }
  }

  lemma {:induction false} EscapeStep(s: seq<byte>, value: int)
    requires |s| > 0 && s[0] == BACKSLASH
    requires value == if |s| < 4 || !Octal(s[1]) || !Octal(s[2]) || !Octal(s[3]) then -1 else Digits(s[1], s[2], s[3])
    ensures Unescape(s) == if value <= 0 || value > 255 then None else Prepend(value, Unescape(s[4..]))
  {
  }

  /** One turn of the decoding loop. */
  method DecodeNext(text: array<byte>, n: nat, get: nat, put: nat, ghost all: seq<byte>)
    returns (ok: bool, get': nat, put': nat)
    requires n < text.Length && text[n] == 0 && get < n && Decoding(all, text[..n], get, put)
    modifies text
    ensures text[n] == 0 && get < get'
    ensures if ok then Decoding(all, text[..n], get', put') else Unescape(all) == None
  {
    ghost var s := all[get..];
    assert text[get..n] == text[..n][get..] == s;
    assert text[get] == s[0];
    get', put' := get + 1, put + 1;
    if text[get] != BACKSLASH {
      assert s[1..] == all[get + 1..];
      PutDecoded(text, n, get, put, text[get], 1, all);
      return true, get', put';
    }
    var value := ReadEscape(text, n, get);
    EscapeStep(s, value);
    if value <= 0 || value > 255 {
      return false, get', put';
    }
    get' := get + 4;
    assert s[4..] == all[get + 4..];
    PutDecoded(text, n, get, put, value, 4, all);
    ok := true;
  }

  method PutDecoded(text: array<byte>, n: nat, get: nat, put: nat, b: byte, k: nat, ghost all: seq<byte>)
    requires n < text.Length && text[n] == 0 && Decoding(all, text[..n], get, put) && 0 < k <= n - get
    requires Unescape(all[get..]) == Prepend(b, Unescape(all[get + k..]))
    modifies text
    ensures text[n] == 0 && Decoding(all, text[..n], get + k, put + 1)
  {
    ghost var now := text[..n];
    DecodeOne(all, now, get, put, b, k);
    text[put] := b;
    assert text[..n] == now[put := b];
  }

  lemma {:induction false} DecodingStarts(all: seq<byte>)
    ensures Decoding(all, all, 0, 0)
  {
    var rest := Unescape(all);
    assert all[0..] == all && (rest.Some? ==> [] + rest.value == rest.value);
  }

  lemma {:induction false} DecodingEnds(all: seq<byte>, now: seq<byte>, put: nat)
    requires Decoding(all, now, |all|, put)
    ensures Unescape(all) == Some(now[..put])
  {
    assert now[..put] + [] == now[..put];
  }

  /** mountinfo_unescape: decodes in place; text holds the string and its terminator. */
  method UnescapeInPlace(text: array<byte>, n: nat) returns (ok: bool, length: nat)
    requires n < text.Length && text[n] == 0
    modifies text
    ensures ok <==> Unescape(old(text[..n])).Some?
    ensures ok ==> length <= n && text[..length] == Unescape(old(text[..n])).value && text[length] == 0
  {
    ghost var all := text[..n];
    var get: nat, put: nat := 0, 0;
    DecodingStarts(all);
    while get < n
      invariant text[n] == 0 && Decoding(all, text[..n], get, put)
      decreases n - get
    {
      ok, get, put := DecodeNext(text, n, get, put, all);
      if !ok {
        return false, 0;
      }
    }
    DecodingEnds(all, text[..n], put);
    assert text[..put] == text[..n][..put];
    text[put] := 0;
    return true, put;
  }

  // ----- Reachability -----

  datatype Mount = Mount(id: nat, device: seq<byte>, root: seq<byte>, point: seq<byte>)

  /** What a table line says: where in its file system the mount starts, if that is a path, and where
      in the namespace it is. */
  datatype Where = Where(root: Option<Path>, point: Path)

  ghost predicate Describes(w: Where, m: Mount) {
    && Clean(w.point) && m.point == Text(w.point)
    && if w.root.Some? then Clean(w.root.value) && m.root == Text(w.root.value) else |m.root| == 0 || m.root[0] != SLASH
  }

  ghost predicate DescribesAll(ws: seq<Where>, mounts: seq<Mount>) {
    |ws| == |mounts| && forall i :: 0 <= i < |mounts| ==> Describes(ws[i], mounts[i])
  }

  /** The mount shows the location at or below the share. */
  predicate Exposes(w: Where, location: Path, share: Path) {
    w.root.Some? && w.root.value <= location && share <= w.point + location[|w.root.value|..]
  }

  ghost predicate Exposed(mounts: seq<Mount>, ws: seq<Where>, device: seq<byte>, location: Path, share: Path)
    requires |ws| == |mounts|
  {
    exists i :: 0 <= i < |mounts| && mounts[i].device == device && Exposes(ws[i], location, share)
  }

  /** The mount that the target is on, and the target's place in that mount's file system. */
  predicate Located(w: Where, target: Path) {
    w.root.Some? && w.point <= target
  }

  function Location(w: Where, target: Path): Path
    requires Located(w, target)
  {
    w.root.value + target[|w.point|..]
  }

  /** The last line with the wanted identifier. */
  method Find(mounts: seq<Mount>, id: nat) returns (found: int)
    ensures -1 <= found < |mounts|
    ensures found >= 0 ==> mounts[found].id == id
    ensures forall i :: found < i < |mounts| ==> mounts[i].id != id
  {
    found := -1;
    var i := 0;
    while i < |mounts|
      invariant 0 <= i <= |mounts| && -1 <= found < i
      invariant found >= 0 ==> mounts[found].id == id
      invariant forall k :: found < k < i ==> mounts[k].id != id
    {
      if mounts[i].id == id {
        found := i;
      }
      i := i + 1;
    }
  }

  /** join_path into a buffer of LIMIT bytes. */
  function Join(base: seq<byte>, rest: seq<byte>): Option<seq<byte>> {
    var text := Joined(base, rest);
    if |text| >= LIMIT then None else Some(text)
  }

  /** One mount of the device: 1 if it exposes the location below the share, -1 if the path is too long. */
  method CheckMount(mount: Mount, location: seq<byte>, share: seq<byte>,
                    ghost w: Where, ghost where: Path, ghost shared: Path)
    returns (result: int)
    requires Describes(w, mount) && Clean(where) && Names(location, where) && Clean(shared) && share == Text(shared)
    ensures result == 1 ==> Exposes(w, where, shared)
    ensures result == 0 ==> !Exposes(w, where, shared)
    ensures result == 0 || result == 1 || (result == -1 && |mount.point| + |location| >= LIMIT)
  {
    if |mount.root| == 0 || mount.root[0] != SLASH {
      NotAbsolute(w, mount);
      return 0;
    }
    Absolute(w, mount);
    UnderIsPrefix(location, where, w.root.value);
    if !Under(location, mount.root) {
      return 0;
    }
    JoinMoves(location, where, w.root.value, w.point);
    var candidate := Join(mount.point, Rest(location, mount.root));
    if candidate.None? {
      return -1;
    }
    UnderIsPrefix(candidate.value, w.point + where[|w.root.value|..], shared);
    result := if Under(candidate.value, share) then 1 else 0;
  }

  lemma {:induction false} NotAbsolute(w: Where, mount: Mount)
    requires Describes(w, mount) && (|mount.root| == 0 || mount.root[0] != SLASH)
    ensures w.root.None?
  {
  }

  lemma {:induction false} Absolute(w: Where, mount: Mount)
    requires Describes(w, mount) && |mount.root| > 0 && mount.root[0] == SLASH
    ensures w.root.Some? && mount.root == Text(w.root.value) && Clean(w.root.value)
  {
  }

  /** A path of that length does not fit the buffers, by itself or behind some mount point. */
  ghost predicate TooLong(mounts: seq<Mount>, length: nat) {
    length >= LIMIT || exists i :: 0 <= i < |mounts| && |mounts[i].point| + length >= LIMIT
  }

  /** mount_reachable on a decoded table. 0 means that no mount of the target's device exposes the
      target's location at or below the share, 1 that one does; anything else is unknown, and only
      because the target is on no listed mount or a path exceeds the buffers. */
  method MountReachable(mounts: seq<Mount>, share: seq<byte>, target: seq<byte>, targetMount: nat,
                        ghost ws: seq<Where>, ghost shared: Path, ghost where: Path)
    returns (result: int, ghost f: int)
    requires DescribesAll(ws, mounts) && Clean(shared) && share == Text(shared) && Clean(where) && Names(target, where)
    ensures -1 <= f < |mounts| && (f >= 0 ==> mounts[f].id == targetMount)
    ensures forall i :: f < i < |mounts| ==> mounts[i].id != targetMount
    ensures result == 0 || result == 1 ==> f >= 0 && Located(ws[f], where)
    ensures result == 0 ==> !Exposed(mounts, ws, mounts[f].device, Location(ws[f], where), shared)
    ensures result == 1 ==> Exposed(mounts, ws, mounts[f].device, Location(ws[f], where), shared)
    ensures result == 0 || result == 1 || result == -1
    ensures result == -1 ==> f < 0 || !Located(ws[f], where) || TooLong(mounts, |mounts[f].root| + |target|)
  {
    var found := Find(mounts, targetMount);
    f := found;
    if found < 0 {
      return -1, f;
    }
    var mount := mounts[found];
    ghost var w := ws[found];
    if |mount.root| == 0 || mount.root[0] != SLASH {
      NotAbsolute(w, mount);
      return -1, f;
    }
    Absolute(w, mount);
    UnderIsPrefix(target, where, w.point);
    if !Under(target, mount.point) {
      return -1, f;
    }
    JoinMoves(target, where, w.point, w.root.value);
    var location := Join(mount.root, Rest(target, mount.point));
    if location.None? {
      return -1, f;
    }
    result := CheckMounts(mounts, mount.device, location.value, share, ws, Location(w, where), shared);
  }

  method CheckMounts(mounts: seq<Mount>, device: seq<byte>, location: seq<byte>, share: seq<byte>,
                     ghost ws: seq<Where>, ghost where: Path, ghost shared: Path)
    returns (result: int)
    requires DescribesAll(ws, mounts) && Clean(where) && Names(location, where)
             && Clean(shared) && share == Text(shared)
    ensures result == 0 ==> !Exposed(mounts, ws, device, where, shared)
    ensures result == 1 ==> Exposed(mounts, ws, device, where, shared)
    ensures result == 0 || result == 1 || result == -1
    ensures result == -1 ==> exists i :: 0 <= i < |mounts| && |mounts[i].point| + |location| >= LIMIT
  {
    result := 0;
    var i := 0;
    while i < |mounts| && result == 0
      invariant 0 <= i <= |mounts| && -1 <= result <= 1
      invariant result == 0 ==>
                  forall k :: 0 <= k < i ==> !(mounts[k].device == device && Exposes(ws[k], where, shared))
      invariant result == 1 ==> Exposed(mounts, ws, device, where, shared)
      invariant result == -1 ==> exists k :: 0 <= k < |mounts| && |mounts[k].point| + |location| >= LIMIT
    {
      if mounts[i].device == device {
        result := CheckMount(mounts[i], location, share, ws[i], where, shared);
      }
      i := i + 1;
    }
  }
}
