/** The bundle archive: what the build script writes and what the launcher unpacks. */
module Bundle {
  import opened Bytes
  import opened Common

  const MAX_NAME: nat := 1023
  const MAX_ENTRIES: nat := 1024
  const DOT: byte := 46
  const FILE_MODE: nat := 0x180    // 0600
  const TOOL_MODE: nat := 0x1C0    // 0700

  datatype Entry = Entry(name: seq<byte>, mode: nat, data: seq<byte>)

  // ----- Names -----

  function SlashAt(s: seq<byte>, i: nat): (j: nat)
    requires i <= |s|
    ensures i <= j <= |s| && (j < |s| ==> s[j] == SLASH) && forall k :: i <= k < j ==> s[k] != SLASH
    decreases |s| - i
  {
    if i == |s| || s[i] == SLASH then i else SlashAt(s, i + 1)
  }

  /** The parts of a name between slashes, from i on. */
  function Components(s: seq<byte>, i: nat): seq<seq<byte>>
    requires i <= |s|
    decreases |s| - i
  {
    var j := SlashAt(s, i);
    if j == |s| then [s[i..j]] else [s[i..j]] + Components(s, j + 1)
  }

  predicate GoodComponent(c: seq<byte>) {
    c != [] && c != [DOT] && c != [DOT, DOT]
  }

  /** A relative name that stays below its root: no empty, "." or ".." component. */
  predicate SafeFrom(s: seq<byte>, i: nat)
    requires i <= |s|
  {
    forall k :: 0 <= k < |Components(s, i)| ==> GoodComponent(Components(s, i)[k])
  }

  predicate Safe(name: seq<byte>) {
    SafeFrom(name, 0)
  }

  lemma {:induction false} SafeStep(s: seq<byte>, i: nat)
    requires i <= |s|
    ensures SafeFrom(s, i) <==>
              GoodComponent(s[i..SlashAt(s, i)]) && (SlashAt(s, i) < |s| ==> SafeFrom(s, SlashAt(s, i) + 1))
  {
    var j := SlashAt(s, i);
    var all := Components(s, i);
    assert all[0] == s[i..j];
    if j < |s| {
      var rest := Components(s, j + 1);
      assert forall k :: 0 <= k < |rest| ==> rest[k] == all[k + 1];
    }
  }

  lemma {:induction false} GoodByLetters(s: seq<byte>, p: nat, n: nat)
    requires p + n <= |s|
    ensures GoodComponent(s[p..p + n]) <==>
              !(n == 0 || (n == 1 && s[p] == DOT) || (n == 2 && s[p] == DOT && s[p + 1] == DOT))
  {
  }

  /** safe_name */
  method SafeName(name: seq<byte>) returns (ok: bool)
    ensures ok <==> Safe(name)
  {
    SafeStep(name, 0);
    if |name| == 0 || name[0] == SLASH {
      return false;
    }
    var p := 0;
    while p < |name|
      invariant 0 <= p <= |name| && (p == |name| ==> Safe(name)) && (p < |name| ==> (Safe(name) <==> SafeFrom(name, p)))
    {
      SafeStep(name, p);
      var n := SlashAt(name, p) - p;
      GoodByLetters(name, p, n);
      if n == 0 || (n == 1 && name[p] == DOT) || (n == 2 && name[p] == DOT && name[p + 1] == DOT) {
        return false;
      }
      p := p + n;
      if p < |name| {
        p := p + 1;
        if p == |name| {
          SafeStep(name, p);
          return false;
        }
      }
    }
    ok := true;
  }

  // ----- Format -----

  /** Which names the reader lets through; the launcher's is Safe. */
  type Check = seq<byte> -> bool

  predicate ValidEntry(e: Entry, good: Check) {
    && 0 < |e.name| <= MAX_NAME && 0 !in e.name && good(e.name)
    && (e.mode == FILE_MODE || e.mode == TOOL_MODE) && |e.data| < Pow256(8)
  }

  function Packed(e: Entry): seq<byte> {
    Le(|e.name|, 4) + Le(e.mode, 4) + Le(|e.data|, 8) + e.name + e.data
  }

  /** What the build script writes. */
  function Archive(entries: seq<Entry>): seq<byte> {
    if entries == [] then Zeros(16) else Packed(entries[0]) + Archive(entries[1..])
  }

  /** One path of the sorted listing of the bundle's tree. */
  datatype Item = Item(path: seq<byte>, isFile: bool, data: seq<byte>)

  const QEMU: seq<byte> := [113, 101, 109, 117]
  const LD_SO: seq<byte> := [108, 100, 46, 115, 111]

  /** The last component of a path. */
  function BaseName(path: seq<byte>): seq<byte> {
    if path == [] || path[|path| - 1] == SLASH then []
    else BaseName(path[..|path| - 1]) + [path[|path| - 1]]
  }

  function EntryOf(item: Item): Entry {
    var tool := BaseName(item.path) == QEMU || BaseName(item.path) == LD_SO;
    Entry(item.path, if tool then TOOL_MODE else FILE_MODE, item.data)
  }

  /** The regular files of the listing, in its order. */
  function Files(items: seq<Item>): seq<Entry> {
    if items == [] then []
    else (if items[0].isFile then [EntryOf(items[0])] else []) + Files(items[1..])
  }

  /** The build script's loop. */
  method WriteArchive(items: seq<Item>) returns (output: seq<byte>)
    ensures output == Archive(Files(items))
  {
    output := [];
    var i := 0;
    assert items[0..] == items && [] + Archive(Files(items)) == Archive(Files(items));
    while i < |items|
      invariant 0 <= i <= |items| && output + Archive(Files(items[i..])) == Archive(Files(items))
    {
      FilesNext(items, i, output);
      if items[i].isFile {
        output := output + Packed(EntryOf(items[i]));
      }
      i := i + 1;
    }
    assert items[i..] == [];
    output := output + Zeros(16);
  }

  lemma {:induction false} FilesNext(items: seq<Item>, i: nat, output: seq<byte>)
    requires i < |items|
    ensures var written := if items[i].isFile then output + Packed(EntryOf(items[i])) else output;
      written + Archive(Files(items[i + 1..])) == output + Archive(Files(items[i..]))
  {
    var rest := Files(items[i + 1..]);
    assert items[i..][1..] == items[i + 1..] && items[i..][0] == items[i];
    if items[i].isFile {
      var e := EntryOf(items[i]);
      assert ([e] + rest)[1..] == rest;
      assert Archive([e] + rest) == Packed(e) + Archive(rest);
      assert (output + Packed(e)) + Archive(rest) == output + (Packed(e) + Archive(rest));
    } else {
      assert [] + rest == rest;
    }
  }

  predicate Bundled(item: Item) {
    item.isFile ==> 0 < |item.path| <= MAX_NAME && 0 !in item.path && Safe(item.path) && |item.data| < Pow256(8)
  }

  lemma {:induction false} FilesAreValid(items: seq<Item>)
    requires forall k :: 0 <= k < |items| ==> Bundled(items[k])
    ensures forall k :: 0 <= k < |Files(items)| ==> ValidEntry(Files(items)[k], Safe)
  {
    if items != [] { FilesAreValid(items[1..]); }
  }

  datatype Head = End | Bad | File(entry: Entry, length: nat)

  function Header(rest: seq<byte>): (nat, nat, nat)
    requires |rest| >= 16
  {
    (FromLe(rest[0..4]), FromLe(rest[4..8]), FromLe(rest[8..16]))
  }

  /** How the launcher reads the next header. */
  function ReadHead(rest: seq<byte>, good: Check): Head {
    if |rest| < 16 then Bad
    else
      var (nameSize, mode, bytes) := Header(rest);
      if nameSize == 0 && mode == 0 && bytes == 0 && |rest| == 16 then End
      else if nameSize == 0 || nameSize > MAX_NAME || nameSize > |rest| - 16 || bytes > |rest| - 16 - nameSize
              || (mode != FILE_MODE && mode != TOOL_MODE) then Bad
      else
        var name := rest[16..16 + nameSize];
        if 0 in name || !good(name) then Bad
        else File(Entry(name, mode, rest[16 + nameSize..16 + nameSize + bytes]), 16 + nameSize + bytes)
  }

  function Parse(rest: seq<byte>, room: nat, good: Check): Option<seq<Entry>>
    decreases |rest|
  {
    match ReadHead(rest, good)
    case End => Some([])
    case Bad => None
    case File(e, n) =>
      if room == 0 || n == 0 || n > |rest| then None
      else
        Prepend(e, Parse(rest[n..], room - 1, good))
  }

  // ----- Exactness -----

  lemma {:induction false} HeaderOf(a: nat, b: nat, c: nat, tail: seq<byte>)
    requires a < Pow256(4) && b < Pow256(4) && c < Pow256(8)
    ensures Header(Le(a, 4) + Le(b, 4) + Le(c, 8) + tail) == (a, b, c)
  {
    var s := Le(a, 4) + Le(b, 4) + Le(c, 8) + tail;
    assert s[0..4] == Le(a, 4) && s[4..8] == Le(b, 4) && s[8..16] == Le(c, 8);
    FromLeOfLe(a, 4);
    FromLeOfLe(b, 4);
    FromLeOfLe(c, 8);
  }

  lemma {:induction false} HeaderIs(rest: seq<byte>)
    requires |rest| >= 16
    ensures var (a, b, c) := Header(rest); rest[..16] == Le(a, 4) + Le(b, 4) + Le(c, 8)
    ensures var (a, b, c) := Header(rest); a < Pow256(4) && b < Pow256(4) && c < Pow256(8)
  {
    LeOfFromLe(rest[0..4]);
    LeOfFromLe(rest[4..8]);
    LeOfFromLe(rest[8..16]);
    var (a, b, c) := Header(rest);
    Words(rest, Le(a, 4), Le(b, 4), Le(c, 8));
  }

  lemma {:induction false} Words(rest: seq<byte>, a: seq<byte>, b: seq<byte>, c: seq<byte>)
    requires |rest| >= 16 && rest[0..4] == a && rest[4..8] == b && rest[8..16] == c
    ensures rest[..16] == a + b + c
  {
  }

  lemma {:induction false} PackedSize(e: Entry)
    ensures |Packed(e)| == 16 + |e.name| + |e.data|
  {
  }

  /** A written entry is read back, whatever follows it. */
  lemma {:induction false} ReadsPacked(e: Entry, tail: seq<byte>, good: Check)
    requires ValidEntry(e, good)
    ensures ReadHead(Packed(e) + tail, good) == File(e, |Packed(e)|)
  {
    WordSizes();
    HeaderOf(|e.name|, e.mode, |e.data|, e.name + e.data + tail);
    var head := Le(|e.name|, 4) + Le(e.mode, 4) + Le(|e.data|, 8);
    Apart(head, e.name, e.data, tail);
    HeadFrom(Packed(e) + tail, e, good);
  }

  lemma {:induction false} Apart(head: seq<byte>, a: seq<byte>, b: seq<byte>, c: seq<byte>)
    requires |head| == 16
    ensures var rest := head + a + b + c;
            && rest == head + (a + b + c) && rest[16..16 + |a|] == a && rest[16 + |a|..16 + |a| + |b|] == b
  {
  }

  lemma {:induction false} HeadFrom(rest: seq<byte>, e: Entry, good: Check)
    requires ValidEntry(e, good) && |rest| >= 16 + |e.name| + |e.data| && Header(rest) == (|e.name|, e.mode, |e.data|)
    requires rest[16..16 + |e.name|] == e.name && rest[16 + |e.name|..16 + |e.name| + |e.data|] == e.data
    ensures ReadHead(rest, good) == File(e, 16 + |e.name| + |e.data|)
  {
  }

  lemma {:induction false} FileRead(rest: seq<byte>, good: Check) returns (a: nat, mode: nat, b: nat)
    requires ReadHead(rest, good).File?
    ensures |rest| >= 16 + a + b && Header(rest) == (a, mode, b)
    ensures var e := Entry(rest[16..16 + a], mode, rest[16 + a..16 + a + b]);
      ReadHead(rest, good) == File(e, 16 + a + b)
    ensures 0 < a <= MAX_NAME && 0 !in rest[16..16 + a] && good(rest[16..16 + a])
    ensures mode == FILE_MODE || mode == TOOL_MODE
  {
    a, mode, b := Header(rest).0, Header(rest).1, Header(rest).2;
  }

  /** An entry that is read was written that way. */
  lemma {:induction false} ReadIsPacked(rest: seq<byte>, good: Check)
    requires ReadHead(rest, good).File?
    ensures var h := ReadHead(rest, good);
            h.length <= |rest| && ValidEntry(h.entry, good) && rest[..h.length] == Packed(h.entry)
  {
    var a, mode, b := FileRead(rest, good);
    PackedFrom(rest, a, mode, b);
  }

  lemma {:induction false} PackedFrom(rest: seq<byte>, a: nat, mode: nat, b: nat)
    requires |rest| >= 16 + a + b && Header(rest) == (a, mode, b)
    ensures rest[..16 + a + b] == Packed(Entry(rest[16..16 + a], mode, rest[16 + a..16 + a + b])) && b < Pow256(8)
  {
    HeaderIs(rest);
    Together(rest, a, b);
    var name, data := rest[16..16 + a], rest[16 + a..16 + a + b];
    assert |name| == a && |data| == b;
    assert Packed(Entry(name, mode, data)) == rest[..16] + name + data;
  }

  lemma {:induction false} Together(rest: seq<byte>, a: nat, b: nat)
    requires 16 + a + b <= |rest|
    ensures rest[..16 + a + b] == rest[..16] + rest[16..16 + a] + rest[16 + a..16 + a + b]
  {
  }

  lemma {:induction false} ZerosAreEnd(rest: seq<byte>, good: Check)
    ensures ReadHead(rest, good).End? <==> rest == Zeros(16)
  {
    if |rest| == 16 {
      HeaderIs(rest);
      ZeroBytes(4);
      ZeroBytes(8);
      ZerosSplit(rest);
      assert rest[..16] == rest;
    }
  }

  lemma {:induction false} ZerosSplit(rest: seq<byte>)
    requires |rest| == 16
    ensures rest == Zeros(16) <==> rest[0..4] == Zeros(4) && rest[4..8] == Zeros(4) && rest[8..16] == Zeros(8)
  {
    if rest[0..4] == Zeros(4) && rest[4..8] == Zeros(4) && rest[8..16] == Zeros(8) {
      forall k | 0 <= k < 16
        ensures rest[k] == 0
      {
        if k < 4 { assert rest[0..4][k] == 0; }
        else if k < 8 { assert rest[4..8][k - 4] == 0; }
        else { assert rest[8..16][k - 8] == 0; }
      }
    }
  }

  lemma {:induction false} ZeroBytes(k: nat)
    ensures Le(0, k) == Zeros(k) && FromLe(Zeros(k)) == 0
  {
    if k > 0 {
      ZeroBytes(k - 1);
      assert [0] + Zeros(k - 1) == Zeros(k);
      assert Zeros(k)[1..] == Zeros(k - 1);
    }
  }

  lemma {:induction false} ParsePacked(e: Entry, tail: seq<byte>, room: nat, good: Check)
    requires ValidEntry(e, good) && room > 0
    ensures Parse(Packed(e) + tail, room, good) == Prepend(e, Parse(tail, room - 1, good))
  {
    ReadsPacked(e, tail, good);
    PackedSize(e);
    assert (Packed(e) + tail)[|Packed(e)|..] == tail;
  }

  lemma {:induction false} ParseEnd(room: nat, good: Check)
    ensures Parse(Zeros(16), room, good) == Some([])
  {
    ZerosAreEnd(Zeros(16), good);
  }

  /** The launcher undoes the writer, for every bundle within the limits. */
  lemma {:induction false} ParseOfArchive(entries: seq<Entry>, room: nat, good: Check)
    requires |entries| <= room && forall k :: 0 <= k < |entries| ==> ValidEntry(entries[k], good)
    ensures Parse(Archive(entries), room, good) == Some(entries)
    decreases |entries|
  {
    if entries == [] {
      ParseEnd(room, good);
    } else {
      ParseOfArchive(entries[1..], room - 1, good);
      ParseOfMore(entries, room, good);
    }
  }

  /** So the launcher unpacks exactly the regular files of the bundle's tree. */
  lemma {:induction false} UnpackedIsBuilt(items: seq<Item>)
    requires |Files(items)| <= MAX_ENTRIES && forall k :: 0 <= k < |items| ==> Bundled(items[k])
    ensures Parse(Archive(Files(items)), MAX_ENTRIES, Safe) == Some(Files(items))
  {
    FilesAreValid(items);
    ParseOfArchive(Files(items), MAX_ENTRIES, Safe);
  }

  lemma {:induction false} ParseOfMore(entries: seq<Entry>, room: nat, good: Check)
    requires entries != [] && room > 0 && ValidEntry(entries[0], good)
    requires Parse(Archive(entries[1..]), room - 1, good) == Some(entries[1..])
    ensures Parse(Archive(entries), room, good) == Some(entries)
  {
    var tail := Archive(entries[1..]);
    ParsePacked(entries[0], tail, room, good);
    assert [entries[0]] + entries[1..] == entries;
  }

  lemma {:induction false} ParseFirst(bytes: seq<byte>, room: nat, good: Check) returns (e: Entry, tail: seq<byte>)
    requires Parse(bytes, room, good).Some? && bytes != Zeros(16)
    ensures room > 0 && ValidEntry(e, good) && bytes == Packed(e) + tail && |tail| < |bytes|
    ensures Parse(tail, room - 1, good).Some? && Parse(bytes, room, good) == Prepend(e, Parse(tail, room - 1, good))
  {
    ZerosAreEnd(bytes, good);
    ReadIsPacked(bytes, good);
    var h := ReadHead(bytes, good);
    e, tail := h.entry, bytes[h.length..];
  }

  /** And accepts nothing else. */
  lemma {:induction false} ParseIsExact(bytes: seq<byte>, room: nat, good: Check)
    requires Parse(bytes, room, good).Some?
    ensures Holds(bytes, Parse(bytes, room, good).value, room, good)
    decreases |bytes|
  {
    if bytes == Zeros(16) {
      ParseEnd(room, good);
    } else {
      var e, tail := ParseFirst(bytes, room, good);
      ParseIsExact(tail, room - 1, good);
      HoldsMore(e, tail, Parse(tail, room - 1, good).value, room, good);
    }
  }

  /** The bytes are the archive of so many valid entries. */
  ghost predicate Holds(bytes: seq<byte>, entries: seq<Entry>, room: nat, good: Check) {
    && bytes == Archive(entries) && |entries| <= room
    && forall k :: 0 <= k < |entries| ==> ValidEntry(entries[k], good)
  }

  lemma {:induction false} HoldsMore(e: Entry, tail: seq<byte>, rest: seq<Entry>, room: nat, good: Check)
    requires room > 0 && ValidEntry(e, good) && Holds(tail, rest, room - 1, good)
    ensures Holds(Packed(e) + tail, [e] + rest, room, good)
  {
    ArchiveFirst(e, rest);
  }

  lemma {:induction false} ArchiveFirst(e: Entry, rest: seq<Entry>)
    ensures Archive([e] + rest) == Packed(e) + Archive(rest)
  {
  }

  /** One turn of extract_bundle's loop, up to the creation of the file. */
  method NextHead(archive: seq<byte>, pos: nat) returns (h: Head)
    requires pos + 16 <= |archive|
    ensures h == ReadHead(archive[pos..], Safe)
  {
    var nameSize, mode := FromLe(archive[pos..pos + 4]), FromLe(archive[pos + 4..pos + 8]);
    var bytes := FromLe(archive[pos + 8..pos + 16]);
    HeaderAt(archive, pos);
    var at := pos + 16;
    if nameSize == 0 && mode == 0 && bytes == 0 && at == |archive| {
      return End;
    }
    if nameSize == 0 || nameSize > MAX_NAME || nameSize > |archive| - at || bytes > |archive| - at - nameSize
       || (mode != FILE_MODE && mode != TOOL_MODE) {
      return Bad;
    }
    var name := archive[at..at + nameSize];
    assert name == archive[pos..][16..16 + nameSize];
    var safe := SafeName(name);
    if 0 in name || !safe {
      return Bad;
    }
    at := at + nameSize;
    assert archive[at..at + bytes] == archive[pos..][16 + nameSize..16 + nameSize + bytes];
    h := File(Entry(name, mode, archive[at..at + bytes]), 16 + nameSize + bytes);
  }

  /** The parsing loop of extract_bundle: it reads only inside the buffer and, if no file fails to be
      created, accepts exactly the archives that the writer makes of valid bundles. */
  method Extract(archive: seq<byte>, fails: nat -> bool) returns (ok: bool, files: seq<Entry>)
    ensures ok ==> Some(files) == Parse(archive, MAX_ENTRIES, Safe)
    ensures !ok ==> Parse(archive, MAX_ENTRIES, Safe) == None || exists i :: 0 <= i < MAX_ENTRIES && fails(i)
  {
    files := [];
    var pos := 0;
    AllRemains(archive);
    while |archive| - pos >= 16
      invariant 0 <= pos <= |archive| && Remaining(archive, pos, files)
      decreases |archive| - pos
    {
      var h := Turn(archive, pos, files);
      if h.End? {
        return true, files;
      }
      if h.Bad? || |files| == MAX_ENTRIES || fails(|files|) {
        return false, files;
      }
      pos := pos + h.length;
      files := files + [h.entry];
    }
    TooShort(archive, pos, files);
    ok := false;
  }

  /** Where the loop stands: what has been read, with what the rest parses to, is the whole result. */
  ghost predicate Remaining(archive: seq<byte>, pos: nat, files: seq<Entry>) {
    && pos <= |archive| && |files| <= MAX_ENTRIES
    && Onto(files, Parse(archive[pos..], MAX_ENTRIES - |files|, Safe)) == Parse(archive, MAX_ENTRIES, Safe)
  }

  method Turn(archive: seq<byte>, pos: nat, files: seq<Entry>) returns (h: Head)
    requires Remaining(archive, pos, files) && pos + 16 <= |archive|
    ensures h.End? ==> Parse(archive, MAX_ENTRIES, Safe) == Some(files)
    ensures h.Bad? || (h.File? && |files| == MAX_ENTRIES) ==> Parse(archive, MAX_ENTRIES, Safe) == None
    ensures h.File? ==> 0 < h.length <= |archive| - pos
    ensures h.File? && |files| < MAX_ENTRIES ==> Remaining(archive, pos + h.length, files + [h.entry])
  {
    h := NextHead(archive, pos);
    if h.End? {
      assert files + [] == files;
    } else if h.File? {
      ReadLength(archive[pos..]);
      if |files| < MAX_ENTRIES {
        OntoOne(archive, pos, h, files);
      }
    }
  }

  lemma {:induction false} ReadLength(rest: seq<byte>)
    ensures ReadHead(rest, Safe).File? ==> 0 < ReadHead(rest, Safe).length <= |rest|
  {
  }

  lemma {:induction false} TooShort(archive: seq<byte>, pos: nat, files: seq<Entry>)
    requires Remaining(archive, pos, files) && |archive| - pos < 16
    ensures Parse(archive, MAX_ENTRIES, Safe) == None
  {
  }

  lemma {:induction false} AllRemains(archive: seq<byte>)
    ensures Remaining(archive, 0, [])
  {
    assert archive[0..] == archive;
    OntoNothing(Parse(archive, MAX_ENTRIES, Safe));
  }

  lemma {:induction false} OntoOne(archive: seq<byte>, pos: nat, h: Head, files: seq<Entry>)
    requires pos <= |archive| && h == ReadHead(archive[pos..], Safe) && h.File? && 0 < h.length <= |archive| - pos
    requires |files| < MAX_ENTRIES
    ensures Onto(files, Parse(archive[pos..], MAX_ENTRIES - |files|, Safe)) ==
            Onto(files + [h.entry], Parse(archive[pos + h.length..], MAX_ENTRIES - |files| - 1, Safe))
  {
    assert archive[pos..][h.length..] == archive[pos + h.length..];
    OntoPrepend(files, h.entry, Parse(archive[pos + h.length..], MAX_ENTRIES - |files| - 1, Safe));
  }

  lemma {:induction false} HeaderAt(archive: seq<byte>, pos: nat)
    requires pos + 16 <= |archive|
    ensures Header(archive[pos..]) ==
            (FromLe(archive[pos..pos + 4]), FromLe(archive[pos + 4..pos + 8]), FromLe(archive[pos + 8..pos + 16]))
  {
    var rest := archive[pos..];
    assert rest[0..4] == archive[pos..pos + 4] && rest[4..8] == archive[pos + 4..pos + 8];
    assert rest[8..16] == archive[pos + 8..pos + 16];
  }
}
