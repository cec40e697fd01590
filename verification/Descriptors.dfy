/** The guest's descriptor table. Guest descriptors keep their native numbers, below MAX_FDS;
    the loader's own stay at MAX_FDS and above. */
module Descriptors {
  import opened Common

  const MAX_FDS := 256
  const MAX_DIRS := 64

  /** The number the kernel gives a new descriptor: the lowest free one from min on. */
  function Lowest(native: set<int>, min: int): (r: int)
    ensures r >= min && r !in native
    ensures forall x :: min <= x < r ==> x in native
    decreases |native|
  {
    if min in native then
      var r := Lowest(native - {min}, min + 1);
      assert native == (native - {min}) + {min};
      assert forall x :: min <= x < r ==> x in (native - {min}) + {min};
      r
    else min
  }

  function Above(native: set<int>): set<int> {
    set x | x in native && x >= MAX_FDS
  }

  /** One control message of a received datagram: descriptors passed along, or anything else. */
  datatype Control = Rights(numbers: seq<int>) | Other

  /** The numbers of the first i messages, in order. */
  function FlatTo(messages: seq<Control>, i: nat): seq<int>
    requires i <= |messages|
  {
    if i == 0 then [] else FlatTo(messages, i - 1) + Numbers(messages[i - 1])
  }

  function Flat(messages: seq<Control>): seq<int> {
    FlatTo(messages, |messages|)
  }

  function Numbers(message: Control): seq<int> {
    if message.Rights? then message.numbers else []
  }

  /** What recvmsg adds to a process: new numbers, each once. */
  ghost predicate Delivered(before: set<int>, numbers: seq<int>) {
    && (forall i {:trigger New(before, numbers[i])} :: 0 <= i < |numbers| ==> New(before, numbers[i]))
    && forall i, j {:trigger Different(numbers[i], numbers[j])} ::
         0 <= i < j < |numbers| ==> Different(numbers[i], numbers[j])
  }

  predicate New(before: set<int>, number: int) {
    number >= 0 && number !in before
  }

  predicate Different(a: int, b: int) {
    a != b
  }

  lemma {:induction false} MembersNext(numbers: seq<int>, n: nat, before: set<int>)
    requires Delivered(before, numbers) && n < |numbers|
    ensures numbers[n] in Members(numbers[n..]) && New(before, numbers[n])
    ensures Members(numbers[n..]) - {numbers[n]} == Members(numbers[n + 1..])
    ensures numbers[n] !in Members(numbers[..n])
    ensures Members(numbers[..n + 1]) == Members(numbers[..n]) + {numbers[n]}
  {
    forall j | n < j < |numbers| ensures numbers[j] != numbers[n] {
      assert Different(numbers[n], numbers[j]);
    }
    forall j | 0 <= j < n ensures numbers[j] != numbers[n] {
      assert Different(numbers[j], numbers[n]);
    }
    assert New(before, numbers[n]);
    assert numbers[n..] == [numbers[n]] + numbers[n + 1..];
    assert numbers[..n + 1] == numbers[..n] + [numbers[n]];
  }

  lemma {:induction false} FlatPrefix(messages: seq<Control>, i: nat)
    requires i <= |messages|
    ensures FlatTo(messages, i) <= Flat(messages)
    decreases |messages| - i
  {
    if i < |messages| {
      FlatPrefix(messages, i + 1);
    }
  }

  lemma {:induction false} FlatStep(messages: seq<Control>, i: nat)
    requires i < |messages|
    ensures var n := |FlatTo(messages, i)|; var m := Numbers(messages[i]);
            && |FlatTo(messages, i + 1)| == n + |m| <= |Flat(messages)|
            && Flat(messages)[n..n + |m|] == m
  {
    FlatPrefix(messages, i + 1);
  }

  /** At most MAX_FDS distinct numbers fit below MAX_FDS. */
  lemma {:induction false} FewBelow(numbers: seq<int>, before: set<int>, n: nat)
    requires Delivered(before, numbers) && forall i :: 0 <= i < |numbers| ==> numbers[i] < n
    ensures |numbers| <= n
    decreases n, |numbers|
  {
    if |numbers| > 0 {
      assert New(before, numbers[0]);
      if k :| 0 <= k < |numbers| && numbers[k] == n - 1 {
        MembersNext(numbers, k, before);
        var others := numbers[..k] + numbers[k + 1..];
        forall i | 0 <= i < |others|
          ensures New(before, others[i]) && others[i] < n - 1
        {
          var j := if i < k then i else i + 1;
          assert New(before, numbers[j]);
          assert if j < k then Different(numbers[j], numbers[k]) else Different(numbers[k], numbers[j]);
        }
        forall i, j | 0 <= i < j < |others|
          ensures Different(others[i], others[j])
        {
          assert Different(numbers[if i < k then i else i + 1], numbers[if j < k then j else j + 1]);
        }
        FewBelow(others, before, n - 1);
      } else {
        FewBelow(numbers, before, n - 1);
      }
    }
  }

  lemma {:induction false} FlatToPrefix(messages: seq<Control>, more: seq<Control>, i: nat)
    requires i <= |messages| && messages <= more
    ensures FlatTo(messages, i) == FlatTo(more, i)
  {
    if i > 0 { FlatToPrefix(messages, more, i - 1); }
  }

  lemma {:induction false} FlatAppend(messages: seq<Control>, message: Control)
    ensures Flat(messages + [message]) == Flat(messages) + Numbers(message)
  {
    FlatToPrefix(messages, messages + [message], |messages|);
  }

  lemma {:induction false} DeliverOne(before: set<int>, numbers: seq<int>, number: int)
    requires Delivered(before, numbers) && New(before + Members(numbers), number)
    ensures Delivered(before, numbers + [number]) && Members(numbers + [number]) == Members(numbers) + {number}
  {
  }

  lemma {:induction false} DeliveredApart(before: set<int>, numbers: seq<int>)
    requires Delivered(before, numbers)
    ensures forall x :: x in Members(numbers) ==> x >= 0 && x !in before
  {
    forall x | x in Members(numbers)
      ensures x >= 0 && x !in before
    {
      var i :| 0 <= i < |numbers| && numbers[i] == x;
      assert New(before, numbers[i]);
    }
  }

  /** A bridge call that makes, moves or closes descriptors, with the kernel's decisions. */
  datatype Op =
    | Open(ok: bool)
    | Dup(guest: int, min: nat, ok: bool)
    | Pair(ok: bool)
    | Close(guest: int)
    | Dup2(a: int, b: int, ok: bool)
    | Opendir(ok: bool)
    | Fdopendir(guest: int, ok: bool)
    | Closedir(stream: int)
    | Receive(sizes: seq<nat>)
    | Exec

  /** The first n numbers have been sorted out: installed is all of them, or those before the first
      one that did not fit. */
  ghost predicate Sorted(before: set<int>, numbers: seq<int>, n: nat, installed: seq<int>, failed: bool) {
    && |installed| <= n <= |numbers| && Delivered(before, numbers)
    && installed == numbers[..|installed|] && (forall i :: 0 <= i < |installed| ==> installed[i] < MAX_FDS)
    && if failed then |installed| < n && numbers[|installed|] >= MAX_FDS else |installed| == n
  }

  /** Every vacant number below MAX_FDS can be given to a copy of the placeholder. */
  ghost predicate Fillable(before: set<int>, placeholder: int, failAt: int, soft: nat) {
    forall i :: 0 <= i < MAX_FDS && i !in before && i != placeholder ==> i < soft && i != failAt
  }

  /** The soft limit while loading. */
  function Raised(soft: nat, hard: nat): nat
    requires soft <= hard
  {
    if hard - soft > MAX_FDS then soft + MAX_FDS else hard
  }

  class Bridge {
    /** Guest number to native number, or -1. */
    const fds: array<int>
    /** Open directory streams and their guest numbers. */
    const dirs: array<bool>
    const dirFds: array<int>
    /** The process's open descriptors and its limit on new ones, as the kernel has them. */
    var native: set<int>
    var soft: nat
    const hard: nat
    /** The reservation: placeholders in the guest's range, and the soft limit to go back to. */
    const slots: array<bool>
    var raised: bool
    var limit: nat

    /** The table lists the native descriptors below MAX_FDS, apart from some just opened, each under
        its own number. */
    ghost predicate Matches(extra: set<int>)
      reads this, fds
    {
      && fds.Length == MAX_FDS && extra <= native && (forall x :: x in native ==> x >= 0)
      && forall i :: 0 <= i < MAX_FDS ==> fds[i] == if i in native && i !in extra then i else -1
    }

    ghost predicate StreamsOk()
      reads dirs, dirFds
    {
      && dirs.Length == MAX_DIRS && dirFds.Length == MAX_DIRS
      && forall d :: 0 <= d < MAX_DIRS && dirs[d] ==> 0 <= dirFds[d] < MAX_FDS
    }

    ghost predicate StreamsFull()
      reads dirs
    {
      forall k :: 0 <= k < dirs.Length ==> dirs[k]
    }

    /** Stream d, free before, is the only one opened. */
    ghost predicate OpenedStream(d: int, before: seq<bool>)
      reads dirs
    {
      && 0 <= d < |before| == dirs.Length && !before[d]
      && forall k :: 0 <= k < dirs.Length ==> dirs[k] == (before[k] || k == d)
    }

    ghost predicate Valid()
      reads this, fds, dirs, dirFds
    {
      fds != dirFds && Matches({}) && StreamsOk()
    }

    /** A process as it starts, with its table still to be filled. */
    constructor (native: set<int>, soft: nat, hard: nat)
      requires forall x :: x in native ==> x >= 0
      ensures this.native == native && this.soft == soft && this.hard == hard
      ensures fds.Length == MAX_FDS && fds != dirFds && StreamsOk()
      ensures fresh(fds) && fresh(dirs) && fresh(dirFds) && fresh(slots) && slots.Length == MAX_FDS && slots != dirs
    {
      this.native, this.soft, this.hard := native, soft, hard;
      slots, raised, limit := new bool[MAX_FDS], false, 0;
      fds := new int[MAX_FDS];
      dirs := new bool[MAX_DIRS](_ => false);
      dirFds := new int[MAX_DIRS];
    }

    /** inherit_descriptors: afterwards the table lists exactly the open descriptors of the guest's range,
        each under its own number. The query of number failAt fails with something other than EBADF. */
    method Inherit(failAt: int) returns (ok: bool)
      requires fds.Length == MAX_FDS && fds != dirFds && StreamsOk() && forall x :: x in native ==> x >= 0
      modifies fds
      ensures ok <==> !(0 <= failAt < MAX_FDS)
      ensures ok ==> Valid()
    {
      var i := 0;
      while i < MAX_FDS
        invariant 0 <= i <= MAX_FDS
        invariant forall k :: 0 <= k < i ==> fds[k] == -1
      {
        fds[i] := -1;
        i := i + 1;
      }
      i := 0;
      while i < MAX_FDS
        invariant 0 <= i <= MAX_FDS && !(0 <= failAt < i)
        invariant forall k :: 0 <= k < MAX_FDS ==> fds[k] == if k < i && k in native then k else -1
      {
        if i == failAt {
          return false;
        }
        if i in native {
          fds[i] := i;
        }
        i := i + 1;
      }
      ok := true;
    }

    // ----- The kernel -----

    /** open, socket, fcntl(F_DUPFD), memfd_create: the lowest free number, if the limit allows it. */
    method KernelOpen(min: nat, ok: bool) returns (number: int)
      modifies this`native
      ensures number == if ok && Lowest(old(native), min) < soft then Lowest(old(native), min) else -1
      ensures native == if number < 0 then old(native) else old(native) + {number}
    {
      number := Lowest(native, min);
      if ok && number < soft {
        native := native + {number};
      } else {
        number := -1;
      }
    }

    method KernelClose(number: int)
      modifies this`native
      ensures native == old(native) - {number}
    {
      native := native - {number};
    }

    // ----- The table -----

    /** fd */
    method Fd(guest: int) returns (r: int)
      requires Valid()
      ensures r == if 0 <= guest < MAX_FDS && guest in native then guest else -1
    {
      r := if guest < 0 || guest >= MAX_FDS || fds[guest] < 0 then -1 else fds[guest];
    }

    /** adopt_descriptor */
    method SaveFd(number: int, minimum: int, ghost extra: set<int>) returns (r: int)
      requires Matches(extra) && (number < 0 || (number in extra && number >= minimum))
      modifies this`native, fds
      ensures r == if 0 <= number < MAX_FDS then number else -1
      ensures native == if number >= MAX_FDS then old(native) - {number} else old(native)
      ensures Matches(extra - {number})
    {
      if number < 0 {
        assert extra - {number} == extra;
        return -1;
      }
      if number >= minimum && number < MAX_FDS && fds[number] < 0 {
        fds[number] := number;
        return number;
      }
      KernelClose(number);
      r := -1;
    }

    /** Closes an adopted descriptor and forgets it. */
    method Drop(guest: int, ghost extra: set<int>)
      requires Matches(extra) && 0 <= guest < MAX_FDS && guest in native && guest !in extra
      modifies this`native, fds
      ensures native == old(native) - {guest} && Matches(extra)
    {
      KernelClose(fds[guest]);
      fds[guest] := -1;
    }

    // ----- Service steps -----

    /** BR_OPEN, and every other call that makes one descriptor; min is 0 but for F_DUPFD. */
    method Open(min: nat, ok: bool) returns (r: int)
      requires Valid()
      modifies this`native, fds
      ensures Valid()
      ensures var n := Lowest(old(native), min); r == if ok && n < soft && n < MAX_FDS then n else -1
      ensures native == if r < 0 then old(native) else old(native) + {r}
    {
      var number := KernelOpen(min, ok);
      ghost var extra := if number < 0 then {} else {number};
      r := SaveFd(number, min, extra);
      assert extra - {number} == {};
    }

    /** BR_FCNTL with BF_DUPFD. */
    method Dup(guest: int, min: nat, ok: bool) returns (r: int)
      requires Valid()
      modifies this`native, fds
      ensures Valid()
      ensures r == if !(0 <= guest < MAX_FDS && guest in old(native)) || min >= MAX_FDS then -1
                   else var n := Lowest(old(native), min); if ok && n < soft && n < MAX_FDS then n else -1
      ensures native == if r < 0 then old(native) else old(native) + {r}
    {
      var actual := Fd(guest);
      if actual < 0 || min >= MAX_FDS {
        return -1;
      }
      r := Open(min, ok);
    }

    /** BR_PIPE and PX_SOCKETPAIR: both ends or neither. */
    method Pair(ok: bool) returns (first: int, second: int)
      requires Valid()
      modifies this`native, fds
      ensures Valid()
      ensures var a := Lowest(old(native), 0); var b := Lowest(old(native) + {a}, 0);
              && (if ok && a < soft && b < soft && a < MAX_FDS && b < MAX_FDS then first == a && second == b
                  else first == -1)
              && native == if first < 0 then old(native) else old(native) + {a, b}
    {
      second := -1;
      ghost var before := native;
      var number := KernelOpen(0, ok);
      if number < 0 {
        return -1, -1;
      }
      var number' := KernelOpen(0, ok);
      if number' < 0 {
        KernelClose(number);
        assert native == before;
        return -1, -1;
      }
      first, second := SavePair(number, number', before);
    }

    /** The tables for a new pair: both ends, or neither and both closed. */
    method SavePair(a: int, b: int, ghost before: set<int>) returns (first: int, second: int)
      requires a >= 0 && b >= 0 && a != b && a !in before && b !in before && native == before + {a, b}
      requires Matches({a, b})
      modifies this`native, fds
      ensures Matches({})
      ensures if a < MAX_FDS && b < MAX_FDS then first == a && second == b && native == before + {a, b}
              else first == -1 && native == before
    {
      second := -1;
      first := SaveFd(a, 0, {a, b});
      assert {a, b} - {a} == {b};
      if first < 0 {
        KernelClose(b);
        assert native == before;
        return;
      }
      second := SaveFd(b, 0, {b});
      assert {b} - {b} == {};
      if second < 0 {
        assert native == before + {a};
        Drop(first, {});
        first := -1;
      }
    }

    /** BR_CLOSE. Linux frees the number even when close reports an error. */
    method Close(guest: int) returns (ok: bool)
      requires Valid()
      modifies this`native, fds
      ensures Valid() && ok == (0 <= guest < MAX_FDS && guest in old(native))
      ensures native == if ok then old(native) - {guest} else old(native)
    {
      var actual := Fd(guest);
      ok := actual >= 0;
      if ok {
        Drop(guest, {});
      }
    }

    /** BR_DUP2 */
    method Dup2(a: int, b: int, ok: bool) returns (r: int)
      requires Valid()
      modifies this`native, fds
      ensures Valid()
      ensures r == if 0 <= a < MAX_FDS && a in old(native) && 0 <= b < MAX_FDS && (a == b || ok) then b else -1
      ensures native == if r < 0 then old(native) else old(native) + {b}
    {
      var actual := Fd(a);
      if actual < 0 || b < 0 || b >= MAX_FDS {
        return -1;
      }
      if a == b {
        assert native + {b} == native;
        return b;
      }
      if !ok {
        return -1;
      }
      native := native + {b};
      fds[b] := b;
      r := b;
    }

    /** The first unused directory stream. */
    method FreeStream() returns (d: int)
      requires StreamsOk()
      ensures 0 <= d <= MAX_DIRS && (d < MAX_DIRS ==> !dirs[d])
      ensures forall k :: 0 <= k < d ==> dirs[k]
    {
      d := 0;
      while d < MAX_DIRS && dirs[d]
        invariant 0 <= d <= MAX_DIRS
        invariant forall k :: 0 <= k < d ==> dirs[k]
      {
        d := d + 1;
      }
    }

    /** BR_OPENDIR */
    method Opendir(ok: bool) returns (d: int)
      requires Valid()
      modifies this`native, fds, dirs, dirFds
      ensures Valid()
      ensures var n := Lowest(old(native), 0);
              && (d >= 0 <==> ok && n < soft && n < MAX_FDS && !old(StreamsFull()))
              && (d >= 0 ==> OpenedStream(d, old(dirs[..])) && dirFds[d] == n)
              && native == if d < 0 then old(native) else old(native) + {n}
    {
      d := FreeStream();
      if d == MAX_DIRS {
        return -1;
      }
      var number := KernelOpen(0, ok);
      if number < 0 {
        return -1;
      }
      if number >= MAX_FDS {
        KernelClose(number);
        return -1;
      }
      dirs[d] := true;
      dirFds[d] := number;
      fds[number] := number;
    }

    /** PX_FDOPENDIR */
    method Fdopendir(guest: int, ok: bool) returns (d: int)
      requires Valid()
      modifies dirs, dirFds
      ensures Valid() && native == old(native)
      ensures d >= 0 <==> 0 <= guest < MAX_FDS && guest in native && ok && !old(StreamsFull())
      ensures d >= 0 ==> OpenedStream(d, old(dirs[..])) && dirFds[d] == guest
    {
      var actual := Fd(guest);
      if actual < 0 {
        return -1;
      }
      d := FreeStream();
      if d == MAX_DIRS || !ok {
        return -1;
      }
      dirs[d] := true;
      dirFds[d] := guest;
    }

    /** BR_CLOSEDIR: the stream closes its number, whatever that number has meanwhile become. */
    method Closedir(d: int) returns (ok: bool)
      requires Valid()
      modifies this`native, fds, dirs
      ensures Valid() && ok == (0 <= d < MAX_DIRS && old(dirs[d]))
      ensures native == if ok then old(native) - {dirFds[d]} else old(native)
      ensures forall k :: 0 <= k < MAX_DIRS ==> dirs[k] == (old(dirs[k]) && k != d)
    {
      if d < 0 || d >= MAX_DIRS || !dirs[d] {
        return false;
      }
      var actual := dirFds[d];
      fds[actual] := -1;
      KernelClose(actual);
      dirs[d] := false;
      ok := true;
    }

    /** The table check before exec: it never finds a mismatch. */
    method ExecGuard() returns (ok: bool)
      requires Valid()
      ensures ok
    {
      var i := 0;
      while i < MAX_FDS
        invariant 0 <= i <= MAX_FDS
      {
        if fds[i] >= 0 && fds[i] != i {
          return false;
        }
        i := i + 1;
      }
      ok := true;
    }

    // ----- Receiving descriptors -----

    /** After n of the numbers: the rest are open and in no slot; the installed ones are all of the
        first n unless one of those did not fit. */
    ghost predicate Progress(before: set<int>, numbers: seq<int>, n: nat, installed: seq<int>, failed: bool)
      reads this, fds
    {
      && Sorted(before, numbers, n, installed, failed)
      && Matches(Members(numbers[n..])) && native == before + Members(installed) + Members(numbers[n..])
    }

    lemma {:induction false} ProgressEnds(before: set<int>, numbers: seq<int>, installed: seq<int>, failed: bool)
      requires Progress(before, numbers, |numbers|, installed, failed)
      ensures Matches({}) && native == before + Members(installed)
      ensures Delivered(before, installed) && |installed| <= MAX_FDS
      ensures forall i :: 0 <= i < |installed| ==> installed[i] < MAX_FDS
      ensures !failed <==> forall i :: 0 <= i < |numbers| ==> numbers[i] < MAX_FDS
      ensures !failed ==> installed == numbers
    {
      assert numbers[|numbers|..] == [] && numbers[..|numbers|] == numbers;
      assert Members(numbers[|numbers|..]) == {};
      FewBelow(installed, before, MAX_FDS);
    }

    /** The next number: installed, or closed once something has failed. */
    method Accept(number: int, installed: seq<int>, failed: bool,
                  ghost before: set<int>, ghost numbers: seq<int>, ghost n: nat)
      returns (installed': seq<int>, failed': bool)
      requires Progress(before, numbers, n, installed, failed) && n < |numbers| && number == numbers[n]
      modifies this`native, fds
      ensures Progress(before, numbers, n + 1, installed', failed')
    {
      MembersNext(numbers, n, before);
      assert forall x :: x in installed ==> x in numbers[..n];
      assert number !in installed;
      installed', failed' := installed, failed;
      ghost var rest := Members(numbers[n..]);
      if failed {
        KernelClose(number);
        assert native == before + Members(installed) + Members(numbers[n + 1..]);
        return;
      }
      var logical := SaveFd(number, 0, rest);
      if logical < 0 {
        failed' := true;
        assert native == before + Members(installed) + Members(numbers[n + 1..]);
        return;
      }
      installed' := installed + [logical];
      assert installed' == numbers[..n + 1];
    }

    /** One SCM_RIGHTS message. */
    method AcceptAll(message: seq<int>, installed: seq<int>, failed: bool,
                     ghost before: set<int>, ghost numbers: seq<int>, ghost n: nat)
      returns (installed': seq<int>, failed': bool)
      requires Progress(before, numbers, n, installed, failed)
      requires n + |message| <= |numbers| && numbers[n..n + |message|] == message
      modifies this`native, fds
      ensures Progress(before, numbers, n + |message|, installed', failed')
    {
      installed', failed' := installed, failed;
      var j := 0;
      while j < |message|
        invariant 0 <= j <= |message|
        invariant Progress(before, numbers, n + j, installed', failed')
      {
        assert message[j] == numbers[n + j];
        installed', failed' := Accept(message[j], installed', failed', before, numbers, n + j);
        j := j + 1;
      }
    }

    /** Closes and forgets what had been installed. */
    method RollBack(installed: seq<int>, ghost before: set<int>)
      requires Matches({}) && Delivered(before, installed) && native == before + Members(installed)
      requires forall i :: 0 <= i < |installed| ==> installed[i] < MAX_FDS
      modifies this`native, fds
      ensures Matches({}) && native == before
    {
      var j := 0;
      assert installed[0..] == installed;
      while j < |installed|
        invariant 0 <= j <= |installed|
        invariant Matches({}) && native == before + Members(installed[j..])
      {
        MembersNext(installed, j, before);
        Drop(installed[j], {});
        j := j + 1;
      }
    }

    /** Looks after what recvmsg delivered: if every number fits, all are installed under it; otherwise
        every one of them is closed again and the table is as it was. The list of installed numbers
        never outgrows its MAX_FDS places. */
    method ReceiveRights(messages: seq<Control>, ghost before: set<int>) returns (ok: bool, installed: seq<int>)
      requires Delivered(before, Flat(messages)) && native == before + Members(Flat(messages))
      requires Matches(Members(Flat(messages)))
      modifies this`native, fds
      ensures Matches({}) && |installed| <= MAX_FDS
      ensures ok <==> forall i :: 0 <= i < |Flat(messages)| ==> Flat(messages)[i] < MAX_FDS
      ensures ok ==> installed == Flat(messages)
      ensures native == if ok then before + Members(Flat(messages)) else before
    {
      ghost var numbers := Flat(messages);
      assert numbers[0..] == numbers;
      var failed;
      installed, failed := AcceptMessages(messages, before);
      ProgressEnds(before, numbers, installed, failed);
      ok := !failed;
      if failed {
        RollBack(installed, before);
      }
    }

    /** One control message, whose numbers are at n in all of them. */
    method AcceptMessage(message: Control, installed: seq<int>, failed: bool,
                         ghost before: set<int>, ghost numbers: seq<int>, ghost n: nat)
      returns (installed': seq<int>, failed': bool)
      requires Progress(before, numbers, n, installed, failed)
      requires n + |Numbers(message)| <= |numbers| && numbers[n..n + |Numbers(message)|] == Numbers(message)
      modifies this`native, fds
      ensures Progress(before, numbers, n + |Numbers(message)|, installed', failed')
    {
      installed', failed' := installed, failed;
      if message.Rights? {
        installed', failed' := AcceptAll(message.numbers, installed, failed, before, numbers, n);
      }
    }

    method AcceptNext(messages: seq<Control>, i: nat, installed: seq<int>, failed: bool, ghost before: set<int>)
      returns (installed': seq<int>, failed': bool)
      requires i < |messages| && Progress(before, Flat(messages), |FlatTo(messages, i)|, installed, failed)
      modifies this`native, fds
      ensures Progress(before, Flat(messages), |FlatTo(messages, i + 1)|, installed', failed')
    {
      ghost var numbers, n := Flat(messages), |FlatTo(messages, i)|;
      FlatStep(messages, i);
      installed', failed' := AcceptMessage(messages[i], installed, failed, before, numbers, n);
    }

    method AcceptMessages(messages: seq<Control>, ghost before: set<int>) returns (installed: seq<int>, failed: bool)
      requires Progress(before, Flat(messages), 0, [], false)
      modifies this`native, fds
      ensures Progress(before, Flat(messages), |Flat(messages)|, installed, failed)
    {
      installed, failed := [], false;
      var i := 0;
      while i < |messages|
        invariant 0 <= i <= |messages|
        invariant Progress(before, Flat(messages), |FlatTo(messages, i)|, installed, failed)
      {
        installed, failed := AcceptNext(messages, i, installed, failed, before);
        i := i + 1;
      }
    }

    // ----- Reserving the guest's range while loading -----

    ghost function Placeholders(): set<int>
      reads slots
    {
      set i | 0 <= i < slots.Length && slots[i]
    }

    /** release_descriptor_slots */
    method Release(restoreOk: bool) returns (ok: bool)
      requires slots.Length == MAX_FDS
      modifies this`native, this`soft, this`raised, slots
      ensures native == old(native) - old(Placeholders())
      ensures forall i :: 0 <= i < MAX_FDS ==> !slots[i]
      ensures ok == (!old(raised) || restoreOk)
      ensures soft == if old(raised) && restoreOk then limit else old(soft)
      ensures raised == (old(raised) && !restoreOk)
    {
      var i := 0;
      while i < MAX_FDS
        invariant 0 <= i <= MAX_FDS
        invariant forall k :: 0 <= k < MAX_FDS ==> slots[k] == if k < i then false else old(slots[k])
        invariant native == old(native) - (set k | 0 <= k < i && old(slots[k]))
        modifies this`native, slots
      {
        if slots[i] {
          KernelClose(i);
        }
        slots[i] := false;
        i := i + 1;
      }
      if raised {
        if !restoreOk {
          return false;
        }
        soft, raised := limit, false;
      }
      ok := true;
    }

    /** Fills the vacant numbers below MAX_FDS from i on. */
    method FillSlots(placeholder: int, failAt: int, ghost before: set<int>) returns (ok: bool)
      requires slots.Length == MAX_FDS && native == before + {placeholder} && placeholder !in before
      requires forall i :: 0 <= i < MAX_FDS ==> slots[i] == (i == placeholder)
      modifies this`native, slots
      ensures native == before + {placeholder} + Placeholders() && Placeholders() !! before
      ensures 0 <= placeholder < MAX_FDS ==> placeholder in Placeholders()
      ensures ok ==> forall i :: 0 <= i < MAX_FDS ==> i in native
      ensures ok <==> Fillable(before, placeholder, failAt, soft)
    {
      var i := 0;
      while i < MAX_FDS
        invariant 0 <= i <= MAX_FDS
        invariant forall k :: 0 <= k < i ==> k in before || k == placeholder || (k < soft && k != failAt)
        invariant forall k :: i <= k < MAX_FDS && k in native ==> k in before || k == placeholder
        invariant native == before + {placeholder} + Placeholders() && Placeholders() !! before
        invariant 0 <= placeholder < MAX_FDS ==> slots[placeholder]
        invariant forall k :: 0 <= k < i ==> k in native
      {
        if i !in native {
          var number := KernelOpen(i, i != failAt);
          if number < 0 {
            return false;
          }
          ghost var held := Placeholders();
          slots[i] := true;
          assert Placeholders() == held + {i};
        }
        i := i + 1;
      }
      ok := true;
    }

    /** reserve_descriptor_slots: afterwards every number below MAX_FDS is taken; if it fails, every
        number and, as far as the kernel lets it, the soft limit are as before. */
    method Reserve(raiseOk: bool, memfdOk: bool, failAt: int, restoreOk: bool) returns (ok: bool)
      requires slots.Length == MAX_FDS && (forall x :: x in native ==> x >= 0) && soft <= hard
      modifies this`native, this`soft, this`raised, this`limit, slots
      ensures ok ==>
                && native == old(native) + Placeholders() && Placeholders() !! old(native)
                && (forall i :: 0 <= i < MAX_FDS ==> i in native)
                && raised == (old(soft) != hard) && (if raised then limit == old(soft) else soft == old(soft))
      ensures !ok ==> native == old(native) && (restoreOk ==> soft == old(soft))
      ensures ok <==> var n := Lowest(old(native), 0); var limit := Raised(old(soft), hard);
                && (old(soft) == hard || raiseOk) && memfdOk && n < limit
                && Fillable(old(native), n, failAt, limit)
    {
      ghost var before := native;
      ok := Expand(raiseOk);
      if !ok {
        return;
      }
      var placeholder := KernelOpen(0, memfdOk);
      if placeholder >= 0 {
        if placeholder < MAX_FDS {
          slots[placeholder] := true;
        }
        ok := FillSlots(placeholder, failAt, before);
        if placeholder >= MAX_FDS {
          KernelClose(placeholder);
        }
        assert placeholder < MAX_FDS ==> placeholder in Placeholders();
        assert native == before + Placeholders();
        if ok {
          return;
        }
      }
      ghost var held := Placeholders();
      var ignored := Release(restoreOk);
      assert native == (before + held) - held == before;
      ok := false;
    }

    /** Clears the reservation and raises the soft limit towards the hard one by up to MAX_FDS. */
    method Expand(raiseOk: bool) returns (ok: bool)
      requires slots.Length == MAX_FDS && soft <= hard
      modifies this`soft, this`raised, this`limit, slots
      ensures forall i :: 0 <= i < MAX_FDS ==> !slots[i]
      ensures limit == old(soft) && raised == (soft != old(soft))
      ensures ok == (old(soft) == hard || raiseOk)
      ensures soft == if ok then Raised(old(soft), hard) else old(soft)
    {
      var i := 0;
      while i < MAX_FDS
        invariant 0 <= i <= MAX_FDS
        invariant forall k :: 0 <= k < i ==> !slots[k]
        modifies slots
      {
        slots[i] := false;
        i := i + 1;
      }
      raised, limit := false, soft;
      var extra := hard - soft;
      if extra > MAX_FDS {
        extra := MAX_FDS;
      }
      ok := true;
      if extra > 0 {
        ok := raiseOk;
        if ok {
          soft, raised := soft + extra, true;
        }
      }
    }

    /** Startup: reserve, open any number of loader descriptors, release. Whatever fails on the way, the
        guest's range ends as it was and every loader descriptor is at MAX_FDS or above; the limit ends
        as it was too, unless restoring it is what fails. */
    method Load(opens: seq<bool>, raiseOk: bool, memfdOk: bool, failAt: int, restoreOk: bool) returns (ok: bool)
      requires Valid() && slots.Length == MAX_FDS && slots != dirs && soft <= hard
      modifies this`native, this`soft, this`raised, this`limit, slots
      ensures Valid() && (restoreOk ==> soft == old(soft)) && (ok ==> soft == old(soft))
      ensures old(native) <= native && forall x :: x in native && x !in old(native) ==> x >= MAX_FDS
      ensures var n := Lowest(old(native), 0); var limit := Raised(old(soft), hard);
              var reserved := (old(soft) == hard || raiseOk) && memfdOk && n < limit
                              && Fillable(old(native), n, failAt, limit);
              && (ok <==> reserved && (old(soft) == hard || restoreOk))
              && (!reserved ==> native == old(native))
    {
      ghost var before := native;
      ok := Reserve(raiseOk, memfdOk, failAt, restoreOk);
      if !ok {
        return;
      }
      ghost var held := Placeholders();
      var i := 0;
      while i < |opens|
        invariant 0 <= i <= |opens| && before + held <= native
        invariant forall x :: x in native ==> x in before + held || x >= MAX_FDS
        modifies this`native
      {
        var number := KernelOpen(0, opens[i]);
        i := i + 1;
      }
      ok := Release(restoreOk);
    }

    // ----- Whole sessions -----

    /** recvmsg puts new descriptors into the process, the lowest free numbers in turn, as many as the
        limit allows. */
    method KernelReceive(sizes: seq<nat>) returns (messages: seq<Control>)
      requires forall x :: x in native ==> x >= 0
      modifies this`native
      ensures Delivered(old(native), Flat(messages)) && native == old(native) + Members(Flat(messages))
    {
      messages := [];
      var i := 0;
      while i < |sizes|
        invariant Delivered(old(native), Flat(messages)) && native == old(native) + Members(Flat(messages))
      {
        var message := KernelRights(sizes[i], old(native), Flat(messages));
        FlatAppend(messages, Rights(message));
        messages := messages + [Rights(message)];
        i := i + 1;
      }
    }

    method KernelRights(size: nat, ghost before: set<int>, ghost earlier: seq<int>) returns (message: seq<int>)
      requires Delivered(before, earlier) && native == before + Members(earlier)
      modifies this`native
      ensures Delivered(before, earlier + message) && native == before + Members(earlier + message)
    {
      message := [];
      assert earlier + message == earlier;
      while |message| < size
        invariant Delivered(before, earlier + message) && native == before + Members(earlier + message)
      {
        var number := KernelOpen(0, true);
        if number < 0 {
          return;
        }
        DeliverOne(before, earlier + message, number);
        assert (earlier + message) + [number] == earlier + (message + [number]);
        message := message + [number];
      }
    }

    /** BR_RECVMSG as far as descriptors go. */
    method Receive(sizes: seq<nat>) returns (ok: bool, messages: seq<Control>)
      requires Valid()
      modifies this`native, fds
      ensures Valid() && Above(native) == Above(old(native))
      ensures Delivered(old(native), Flat(messages))
      ensures ok <==> forall i :: 0 <= i < |Flat(messages)| ==> Flat(messages)[i] < MAX_FDS
      ensures native == if ok then old(native) + Members(Flat(messages)) else old(native)
    {
      ghost var before := native;
      messages := KernelReceive(sizes);
      assert forall i {:trigger fds[i]} :: 0 <= i < MAX_FDS ==> fds[i] == if i in before then i else -1;
      DeliveredApart(before, Flat(messages));
      var installed;
      ok, installed := ReceiveRights(messages, before);
    }

    /** Any service step keeps the table exact and the loader's descriptors alone, and exec's table
        check passes. */
    method Serve(op: Op) returns (ok: bool)
      requires Valid()
      modifies this`native, fds, dirs, dirFds
      ensures Valid() && Above(native) == Above(old(native))
      ensures op.Exec? ==> ok
    {
      ok := true;
      var r;
      match op
      case Open(fine) => r := Open(0, fine);
      case Dup(guest, min, fine) => r := Dup(guest, min, fine);
      case Pair(fine) => var second; r, second := Pair(fine);
      case Close(guest) => ok := Close(guest);
      case Dup2(a, b, fine) => r := Dup2(a, b, fine);
      case Opendir(fine) => r := Opendir(fine);
      case Fdopendir(guest, fine) => r := Fdopendir(guest, fine);
      case Closedir(d) => ok := Closedir(d);
      case Receive(sizes) => var messages; ok, messages := Receive(sizes);
      case Exec => ok := ExecGuard();
    }

    /** So does any sequence of them. */
    method Session(ops: seq<Op>) returns (execs: bool)
      requires Valid()
      modifies this`native, fds, dirs, dirFds
      ensures Valid() && Above(native) == Above(old(native)) && execs
    {
      execs := true;
      var i := 0;
      while i < |ops|
        invariant Valid() && Above(native) == Above(old(native)) && execs
      {
        var ok := Serve(ops[i]);
        execs := execs && (ok || !ops[i].Exec?);
        i := i + 1;
      }
    }
  }
}
