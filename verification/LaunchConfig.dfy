/** The launch configuration: a fixed header and the argument vector as zero-terminated strings,
    written by the launcher and read by init. */
module LaunchConfig {
  import opened Bytes
  import opened Common

  const MAGIC: nat := 0x3148_534c
  const MAX_ARGS: nat := 4096
  const MAX_SIZE: nat := 0x10_0000
  const HEADER: nat := 84
  const TERM: nat := 64

  const LOADER: seq<byte> := [108, 105, 110, 117, 120, 45, 98, 97, 115, 104, 45, 111, 115]    // linux-bash-os
  const HOST: seq<byte> := [45, 45, 104, 111, 115, 116]                                       // --host
  const STATS: seq<byte> := [45, 45, 115, 116, 97, 116, 115]                                  // --stats
  const DASHES: seq<byte> := [45, 45]                                                         // --

  datatype Config = Config(argc: nat, terminal: nat, network: nat, rows: nat, cols: nat, term: seq<byte>)

  // ----- Argument strings -----

  predicate NoZero(s: seq<byte>) {
    0 !in s
  }

  predicate AllStrings(args: seq<seq<byte>>) {
    forall k :: 0 <= k < |args| ==> NoZero(args[k])
  }

  function Strings(args: seq<seq<byte>>): seq<byte> {
    if args == [] then [] else args[0] + [0] + Strings(args[1..])
  }

  function ZeroAt(s: seq<byte>, i: nat): (j: nat)
    requires i <= |s|
    ensures i <= j <= |s| && (j < |s| ==> s[j] == 0) && forall k :: i <= k < j ==> s[k] != 0
    decreases |s| - i
  {
    if i == |s| || s[i] == 0 then i else ZeroAt(s, i + 1)
  }

  /** Exactly n strings and nothing after them. */
  function ReadArgs(s: seq<byte>, n: nat): Option<seq<seq<byte>>> {
    if n == 0 then (if s == [] then Some([]) else None)
    else
      var j := ZeroAt(s, 0);
      if j == |s| then None else Prepend(s[..j], ReadArgs(s[j + 1..], n - 1))
  }

  lemma {:induction false} ReadFirst(arg: seq<byte>, rest: seq<byte>, n: nat)
    requires NoZero(arg) && n > 0
    ensures ReadArgs(arg + [0] + rest, n) == Prepend(arg, ReadArgs(rest, n - 1))
  {
    var s := arg + [0] + rest;
    var j := ZeroAt(s, 0);
    assert s[|arg|] == 0;
    assert forall k :: 0 <= k < |arg| ==> s[k] == arg[k];
    assert j == |arg|;
    assert s[..j] == arg && s[j + 1..] == rest;
  }

  /** Reading undoes writing. */
  lemma {:induction false} ReadOfStrings(args: seq<seq<byte>>)
    requires AllStrings(args)
    ensures ReadArgs(Strings(args), |args|) == Some(args)
    decreases |args|
  {
    if args != [] {
      var rest := args[1..];
      ReadOfStrings(rest);
      ReadFirst(args[0], Strings(rest), |args|);
      assert [args[0]] + rest == args;
    }
  }

  /** Only what could have been written is read. */
  lemma {:induction false} ReadIsExact(s: seq<byte>, n: nat)
    requires ReadArgs(s, n).Some?
    ensures var args := ReadArgs(s, n).value; |args| == n && AllStrings(args) && Strings(args) == s
    decreases n
  {
    if n > 0 {
      var arg, rest := ReadSplit(s, n);
      ReadIsExact(rest, n - 1);
      StringsFirst(arg, ReadArgs(rest, n - 1).value);
    }
  }

  lemma {:induction false} ReadSplit(s: seq<byte>, n: nat) returns (arg: seq<byte>, rest: seq<byte>)
    requires n > 0 && ReadArgs(s, n).Some?
    ensures NoZero(arg) && s == arg + [0] + rest
    ensures ReadArgs(rest, n - 1).Some? && ReadArgs(s, n) == Prepend(arg, ReadArgs(rest, n - 1))
  {
    var j := ZeroAt(s, 0);
    arg, rest := s[..j], s[j + 1..];
    assert s == s[..j] + [0] + s[j + 1..];
  }

  lemma {:induction false} StringsFirst(arg: seq<byte>, args: seq<seq<byte>>)
    ensures Strings([arg] + args) == arg + [0] + Strings(args)
  {
  }

  // ----- The whole file -----

  function HeaderBytes(c: Config): seq<byte> {
    Le(MAGIC, 4) + Le(c.argc, 4) + Le(c.terminal, 4) + Le(c.network, 4) + Le(c.rows, 2) + Le(c.cols, 2) + c.term
  }

  function Encoded(c: Config, args: seq<seq<byte>>): seq<byte> {
    HeaderBytes(c) + Strings(args)
  }

  predicate ValidConfig(c: Config) {
    && 0 < c.argc <= MAX_ARGS && c.terminal <= 1 && c.network <= 1 && c.rows < Pow256(2) && c.cols < Pow256(2)
    && |c.term| == TERM && 0 in c.term
  }

  predicate ValidLaunch(c: Config, args: seq<seq<byte>>) {
    ValidConfig(c) && c.argc == |args| && AllStrings(args) && |Encoded(c, args)| <= MAX_SIZE
  }

  function HeaderOf(data: seq<byte>): Config
    requires |data| >= HEADER
  {
    Config(FromLe(data[4..8]), FromLe(data[8..12]), FromLe(data[12..16]), FromLe(data[16..18]), FromLe(data[18..20]),
           data[20..HEADER])
  }

  /** What init's checks accept. */
  predicate HeaderFine(data: seq<byte>)
    requires |data| >= HEADER
  {
    var c := HeaderOf(data);
    && FromLe(data[0..4]) == MAGIC && c.argc <= MAX_ARGS && c.argc != 0
    && c.terminal <= 1 && c.network <= 1 && 0 in c.term
  }

  datatype Launch = Launch(config: Config, args: seq<seq<byte>>)

  function Decode(data: seq<byte>): Option<Launch> {
    if |data| < HEADER || |data| > MAX_SIZE || !HeaderFine(data) then None
    else
      var c := HeaderOf(data);
      var args := ReadArgs(data[HEADER..], c.argc);
      if args.Some? then Some(Launch(c, args.value)) else None
  }

  lemma {:induction false} HeaderSlices(a: seq<byte>, b: seq<byte>, c: seq<byte>, d: seq<byte>, e: seq<byte>,
                                        f: seq<byte>, g: seq<byte>, rest: seq<byte>)
    requires |a| == 4 && |b| == 4 && |c| == 4 && |d| == 4 && |e| == 2 && |f| == 2 && |g| == TERM
    ensures var s := a + b + c + d + e + f + g + rest;
            && s[0..4] == a && s[4..8] == b && s[8..12] == c && s[12..16] == d && s[16..18] == e && s[18..20] == f
            && s[20..HEADER] == g && s[HEADER..] == rest
  {
  }

  lemma {:induction false} HeaderOfBytes(c: Config, rest: seq<byte>)
    requires ValidConfig(c)
    ensures var data := HeaderBytes(c) + rest;
            && |data| == HEADER + |rest| && HeaderOf(data) == c && FromLe(data[0..4]) == MAGIC && data[HEADER..] == rest
  {
    WordSizes();
    HeaderSlices(Le(MAGIC, 4), Le(c.argc, 4), Le(c.terminal, 4), Le(c.network, 4), Le(c.rows, 2), Le(c.cols, 2),
                 c.term, rest);
    FromLeOfLe(MAGIC, 4);
    FromLeOfLe(c.argc, 4);
    FromLeOfLe(c.terminal, 4);
    FromLeOfLe(c.network, 4);
    FromLeOfLe(c.rows, 2);
    FromLeOfLe(c.cols, 2);
  }

  /** init recovers what the launcher wrote. */
  lemma {:induction false} DecodeOfEncoded(c: Config, args: seq<seq<byte>>)
    requires ValidLaunch(c, args)
    ensures Decode(Encoded(c, args)) == Some(Launch(c, args))
  {
    HeaderOfBytes(c, Strings(args));
    ReadOfStrings(args);
  }

  lemma {:induction false} Rejoined(data: seq<byte>)
    requires |data| >= HEADER
    ensures data == data[0..4] + data[4..8] + data[8..12] + data[12..16] + data[16..18] + data[18..20]
                    + data[20..HEADER] + data[HEADER..]
  {
  }

  lemma {:induction false} HeaderIsBytes(data: seq<byte>)
    requires |data| >= HEADER && FromLe(data[0..4]) == MAGIC
    ensures data == HeaderBytes(HeaderOf(data)) + data[HEADER..]
    ensures HeaderOf(data).rows < Pow256(2) && HeaderOf(data).cols < Pow256(2)
  {
    Rejoined(data);
    LeOfFromLe(data[0..4]);
    LeOfFromLe(data[4..8]);
    LeOfFromLe(data[8..12]);
    LeOfFromLe(data[12..16]);
    LeOfFromLe(data[16..18]);
    LeOfFromLe(data[18..20]);
  }

  /** And accepts nothing that the launcher could not have written. */
  lemma {:induction false} DecodeIsExact(data: seq<byte>)
    requires Decode(data).Some?
    ensures var l := Decode(data).value; ValidLaunch(l.config, l.args) && Encoded(l.config, l.args) == data
  {
    var c := HeaderOf(data);
    HeaderIsBytes(data);
    ReadIsExact(data[HEADER..], c.argc);
  }

  // ----- The launcher -----

  /** The guest loader's arguments. */
  function GuestArgs(argv: seq<seq<byte>>, stats: bool): seq<seq<byte>> {
    [LOADER, HOST] + (if stats then [STATS] else []) + [DASHES] + argv
  }

  lemma {:induction false} StringsConcat(a: seq<seq<byte>>, b: seq<seq<byte>>)
    ensures Strings(a + b) == Strings(a) + Strings(b)
    decreases |a|
  {
    if a == [] {
      assert a + b == b;
    } else {
      StringsConcat(a[1..], b);
      assert (a + b)[1..] == a[1..] + b;
    }
  }

  lemma {:induction false} StringsOne(arg: seq<byte>)
    ensures Strings([arg]) == arg + [0]
  {
  }

  lemma {:induction false} StringsNext(args: seq<seq<byte>>, i: nat)
    requires i < |args|
    ensures Strings(args[..i + 1]) == Strings(args[..i]) + (args[i] + [0])
  {
    assert args[..i + 1] == args[..i] + [args[i]];
    StringsConcat(args[..i], [args[i]]);
    StringsOne(args[i]);
  }

  /** The size that the launcher computes before it allocates: one zero per string included. */
  method SizeOf(argv: seq<seq<byte>>, stats: bool) returns (size: nat)
    ensures size == HEADER + |Strings(GuestArgs(argv, stats))|
  {
    size := HEADER + (|LOADER| + 1) + (|HOST| + 1) + (|DASHES| + 1);
    if stats {
      size := size + |STATS| + 1;
    }
    ghost var fixed := [LOADER, HOST] + (if stats then [STATS] else []) + [DASHES];
    FixedStrings(stats);
    var i := 0;
    while i < |argv|
      invariant 0 <= i <= |argv|
      invariant size == HEADER + |Strings(fixed)| + |Strings(argv[..i])|
    {
      StringsNext(argv, i);
      size := size + |argv[i]| + 1;
      i := i + 1;
    }
    assert argv[..i] == argv;
    StringsConcat(fixed, argv);
  }

  lemma {:induction false} FixedStrings(stats: bool)
    ensures |Strings([LOADER, HOST] + (if stats then [STATS] else []) + [DASHES])|
            == (|LOADER| + 1) + (|HOST| + 1) + (|DASHES| + 1) + if stats then |STATS| + 1 else 0
  {
    var middle := if stats then [STATS] else [];
    StringsConcat([LOADER, HOST] + middle, [DASHES]);
    StringsConcat([LOADER, HOST], middle);
    assert [LOADER, HOST] == [LOADER] + [HOST];
    StringsConcat([LOADER], [HOST]);
    StringsOne(LOADER);
    StringsOne(HOST);
    StringsOne(STATS);
    StringsOne(DASHES);
  }

  /** Copies bytes into the buffer. */
  method Put(buffer: array<byte>, p: nat, bytes: seq<byte>)
    requires p + |bytes| <= buffer.Length
    modifies buffer
    ensures buffer[..p + |bytes|] == old(buffer[..p]) + bytes
  {
    var i := 0;
    while i < |bytes|
      invariant 0 <= i <= |bytes|
      invariant buffer[..p + i] == old(buffer[..p]) + bytes[..i]
    {
      buffer[p + i] := bytes[i];
      i := i + 1;
    }
    assert bytes[..i] == bytes;
  }

  /** snprintf into the TERM field: at most 63 bytes, then zeros. */
  function TermField(term: seq<byte>): (field: seq<byte>)
    ensures |field| == TERM && 0 in field
  {
    var text := if |term| < TERM then term else term[..TERM - 1];
    var field := text + Zeros(TERM - |text|);
    assert field[|text|] == 0;
    field
  }

  /** What the launcher is asked for: argv without its first element, and the terminal's state. */
  datatype Options = Options(argv: seq<seq<byte>>, stats: bool, terminal: bool, network: bool,
                             rows: nat, cols: nat, term: seq<byte>)

  /** The header it writes. argc counts the launcher's own name, the two or three added arguments and
      the separator. */
  function ConfigOf(o: Options): Config {
    Config(|o.argv| + 1 + 2 + (if o.stats then 1 else 0), if o.terminal then 1 else 0, if o.network then 1 else 0,
           o.rows, o.cols, TermField(o.term))
  }

  /** configure_guest up to the cpio archive: the buffer is filled exactly, the argument count it computes
      is the number of strings it writes, and init decodes it to the guest's arguments; it is refused
      only if it is over a limit or there is no memory. */
  method Configure(o: Options, mallocOk: bool) returns (data: Option<seq<byte>>)
    requires AllStrings(o.argv) && o.rows < Pow256(2) && o.cols < Pow256(2)
    ensures ConfigOf(o).argc == |GuestArgs(o.argv, o.stats)|
    ensures var args := GuestArgs(o.argv, o.stats);
            data == if HEADER + |Strings(args)| > MAX_SIZE || ConfigOf(o).argc > MAX_ARGS || !mallocOk then None
                    else Some(Encoded(ConfigOf(o), args))
    ensures data.Some? ==> Decode(data.value) == Some(Launch(ConfigOf(o), GuestArgs(o.argv, o.stats)))
  {
    var config, args := ConfigOf(o), GuestArgs(o.argv, o.stats);
    var size := SizeOf(o.argv, o.stats);
    if size > MAX_SIZE || config.argc > MAX_ARGS || !mallocOk {
      return None;
    }
    var buffer := new byte[size];
    var header := HeaderBytes(config);
    assert |header| == HEADER;
    Put(buffer, 0, header);
    PutArgs(buffer, args, header);
    assert buffer[..] == buffer[..size];
    assert AllStrings(args);
    DecodeOfEncoded(config, args);
    data := Some(buffer[..]);
  }

  method PutArgs(buffer: array<byte>, args: seq<seq<byte>>, ghost header: seq<byte>)
    requires buffer.Length == |header| + |Strings(args)| && |header| == HEADER && buffer[..HEADER] == header
    modifies buffer
    ensures buffer[..] == header + Strings(args)
  {
    var i, p := 0, HEADER;
    assert Strings(args[..0]) == [];
    while i < |args|
      invariant 0 <= i <= |args| && p == HEADER + |Strings(args[..i])| <= buffer.Length
      invariant buffer[..p] == header + Strings(args[..i])
    {
      StringsNext(args, i);
      StringsRoom(args, i + 1);
      Put(buffer, p, args[i] + [0]);
      p := p + |args[i]| + 1;
      i := i + 1;
    }
    assert args[..i] == args;
    assert buffer[..] == buffer[..p];
  }

  lemma {:induction false} StringsRoom(args: seq<seq<byte>>, i: nat)
    requires i <= |args|
    ensures |Strings(args[..i])| <= |Strings(args)|
  {
    assert args == args[..i] + args[i..];
    StringsConcat(args[..i], args[i..]);
  }

  // ----- init -----

  /** The checks and the argument loop of init's main. */
  method ReadConfig(data: seq<byte>) returns (launch: Option<Launch>)
    ensures launch == Decode(data)
  {
    if |data| < HEADER || |data| > MAX_SIZE || !HeaderFine(data) {
      return None;
    }
    var c := HeaderOf(data);
    var args := ReadAll(data, c.argc);
    launch := if args.Some? then Some(Launch(c, args.value)) else None;
  }

  method ReadAll(data: seq<byte>, argc: nat) returns (args: Option<seq<seq<byte>>>)
    requires |data| >= HEADER
    ensures args == ReadArgs(data[HEADER..], argc)
  {
    var offset: nat, i := HEADER, 0;
    var done: seq<seq<byte>> := [];
    ghost var all := ReadArgs(data[HEADER..], argc);
    OntoNothing(all);
    while i < argc
      invariant 0 <= i <= argc && Remaining(data, all, offset, done, argc - i)
    {
      var ok;
      ok, offset, done := ReadNext(data, all, offset, done, argc - i);
      if !ok {
        return None;
      }
      i := i + 1;
    }
    LastString(data, all, offset, done);
    args := if offset != |data| then None else Some(done);
  }

  method ReadNext(data: seq<byte>, ghost all: Option<seq<seq<byte>>>, offset: nat, done: seq<seq<byte>>, ghost n: nat)
    returns (ok: bool, offset': nat, done': seq<seq<byte>>)
    requires Remaining(data, all, offset, done, n) && n > 0
    ensures if ok then Remaining(data, all, offset', done', n - 1) else all == None
  {
    var end := ZeroAt(data, offset);
    NextString(data, all, offset, done, n);
    if offset >= |data| || end == |data| {
      return false, offset, done;
    }
    return true, end + 1, done + [data[offset..end]];
  }

  /** Where the loop stands: all is what was read with what n strings from offset on give. */
  ghost predicate Remaining(data: seq<byte>, all: Option<seq<seq<byte>>>, offset: nat, done: seq<seq<byte>>, n: nat) {
    HEADER <= offset <= |data| && Onto(done, ReadArgs(data[offset..], n)) == all
  }

  lemma {:induction false} NextString(data: seq<byte>, all: Option<seq<seq<byte>>>, offset: nat, done: seq<seq<byte>>,
                                      n: nat)
    requires Remaining(data, all, offset, done, n) && n > 0
    ensures var end := ZeroAt(data, offset);
            if end == |data| then all == None
            else Remaining(data, all, end + 1, done + [data[offset..end]], n - 1)
  {
    OntoOne(data, offset, n, done);
  }

  lemma {:induction false} LastString(data: seq<byte>, all: Option<seq<seq<byte>>>, offset: nat, done: seq<seq<byte>>)
    requires Remaining(data, all, offset, done, 0)
    ensures all == if offset != |data| then None else Some(done)
  {
    assert done + [] == done;
  }

  lemma {:induction false} ZeroAtSlice(data: seq<byte>, offset: nat)
    requires offset <= |data|
    ensures ZeroAt(data[offset..], 0) == ZeroAt(data, offset) - offset
  {
  }

  lemma {:induction false} OntoOne(data: seq<byte>, offset: nat, n: nat, done: seq<seq<byte>>)
    requires offset <= |data| && n > 0
    ensures var end := ZeroAt(data, offset);
            Onto(done, ReadArgs(data[offset..], n)) ==
            if end == |data| then None else Onto(done + [data[offset..end]], ReadArgs(data[end + 1..], n - 1))
  {
    var end := ZeroAt(data, offset);
    ZeroAtSlice(data, offset);
    if end < |data| {
      var rest := ReadArgs(data[end + 1..], n - 1);
      assert data[offset..][..end - offset] == data[offset..end]
             && data[offset..][end - offset + 1..] == data[end + 1..];
      assert ReadArgs(data[offset..], n) == Prepend(data[offset..end], rest);
      OntoPrepend(done, data[offset..end], rest);
    }
  }
}
