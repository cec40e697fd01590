/** Runs in which the guest's mask and the native one part, and what a later ppoll makes of it. */
module SignalScenarios {
  import opened Common
  import D = SignalDispatch
  import B = SignalBridge
  import opened SignalSystem

  // ----- Stretches of a run -----

  function Last(run: seq<State>): State
    requires run != []
  {
    run[|run| - 1]
  }

  ghost predicate Reachable(s: State) {
    exists run :: IsRun(run) && Last(run) == s
  }

  /** Consecutive states from s to t, in which nothing that is pending in s is taken. */
  ghost predicate Stretch(path: seq<State>, s: State, t: State) {
    && path != [] && path[0] == s && Last(path) == t
    && (forall i {:trigger Successor(path[i - 1], path[i])} :: 0 < i < |path| ==> Successor(path[i - 1], path[i]))
    && (forall i {:trigger path[i]} :: 0 <= i < |path| ==> s.guest.pending <= path[i].guest.pending)
  }

  ghost predicate Quiet(s: State, t: State) {
    exists path :: Stretch(path, s, t)
  }

  lemma {:induction false} QuietStep(s: State, step: Step)
    requires Can(s, step) && s.guest.pending <= Next(s, step).guest.pending
    ensures Quiet(s, Next(s, step))
  {
    assert Stretch([s, Next(s, step)], s, Next(s, step));
  }

  lemma {:induction false} StretchOn(a: seq<State>, b: seq<State>, s: State, mid: State, t: State)
    requires Stretch(a, s, mid) && Stretch(b, mid, t)
    ensures Stretch(a + b[1..], s, t)
  {
    var c := a + b[1..];
    forall i | 0 < i < |c|
      ensures Successor(c[i - 1], c[i])
    {
      if i < |a| {
        assert Successor(a[i - 1], a[i]);
      } else {
        var k := i - |a| + 1;
        assert Successor(b[k - 1], b[k]);
        assert c[i - 1] == b[k - 1];
      }
    }
    forall i | 0 <= i < |c|
      ensures s.guest.pending <= c[i].guest.pending
    {
      assert s.guest.pending <= Last(a).guest.pending;
      if i >= |a| { assert c[i] == b[i - |a| + 1]; }
    }
  }

  lemma {:induction false} QuietOn(s: State, mid: State, t: State)
    requires Quiet(s, mid) && Quiet(mid, t)
    ensures Quiet(s, t)
  {
    var a :| Stretch(a, s, mid);
    var b :| Stretch(b, mid, t);
    StretchOn(a, b, s, mid, t);
  }

  lemma {:induction false} RunOn(run: seq<State>, path: seq<State>, t: State)
    requires IsRun(run) && Stretch(path, Last(run), t)
    ensures IsRun(run + path[1..]) && Last(run + path[1..]) == t
  {
    var c := run + path[1..];
    forall i | 0 < i < |c|
      ensures Successor(c[i - 1], c[i])
    {
      if i < |run| {
        assert Successor(run[i - 1], run[i]);
      } else {
        var k := i - |run| + 1;
        assert Successor(path[k - 1], path[k]);
        assert c[i - 1] == path[k - 1];
      }
    }
  }

  lemma {:induction false} Onward(s: State, t: State)
    requires Reachable(s) && Quiet(s, t)
    ensures Reachable(t)
  {
    var run :| IsRun(run) && Last(run) == s;
    var path :| Stretch(path, s, t);
    RunOn(run, path, t);
  }

  /** Any single step, one that takes a signal included. */
  lemma {:induction false} Goes(s: State, step: Step)
    requires Reachable(s) && Can(s, step)
    ensures Reachable(Next(s, step))
  {
    var run :| IsRun(run) && Last(run) == s;
    var more := run + [Next(s, step)];
    forall i | 0 < i < |more|
      ensures Successor(more[i - 1], more[i])
    {
      if i < |run| {
        assert Successor(run[i - 1], run[i]);
      } else {
        assert more[i - 1] == s;
      }
    }
    assert Last(more) == Next(s, step);
  }

  lemma {:induction false} ReachableInv(s: State)
    requires Reachable(s)
    ensures Inv(s)
  {
    var run :| IsRun(run) && Last(run) == s;
    InvAlways(run, |run| - 1);
  }

  // ----- Calls from beginning to end -----

  function Target(after: B.After): B.Place {
    match after
    case ToGuest => B.Guest
    case ToCheck(desired, polling) => B.Check(desired, polling)
    case ToRestore => B.Restore
  }

  /** All recorded signals moved to the mailbox, and the thread at a place. */
  function MovedTo(s: State, place: B.Place): State {
    var all := s.host.mailbox + s.host.noted;
    s.(host := s.host.(place := place, noted := {}, mailbox := all), guest := s.guest.(pending := all))
  }

  lemma {:induction false} Publishes(s: State, i: int, after: B.After)
    requires Inv(s) && s.host.place == B.Publish(i, false, after)
    ensures Quiet(s, MovedTo(s, Target(after)))
    decreases 65 - i
  {
    var t := Next(s, Host(B.Execute));
    QuietStep(s, Host(B.Execute));
    InvStep(s, Host(B.Execute));
    if i == 65 {
      assert s.host.noted == {} && s.host.mailbox + {} == s.host.mailbox;
      assert t == MovedTo(s, Target(after));
    } else {
      if i in s.host.noted {
        var u := Next(t, Host(B.Execute));
        QuietStep(t, Host(B.Execute));
        InvStep(t, Host(B.Execute));
        QuietOn(s, t, u);
        t := u;
        assert (s.host.mailbox + {i}) + (s.host.noted - {i}) == s.host.mailbox + s.host.noted;
      }
      Publishes(t, i + 1, after);
      assert MovedTo(t, Target(after)) == MovedTo(s, Target(after));
      QuietOn(s, t, MovedTo(s, Target(after)));
    }
  }

  /** The state when a call has come back to the guest. */
  function HandedBack(s: State): State
    requires !s.call.NoCall?
  {
    Resumed(MovedTo(s, B.Guest))
  }

  lemma {:induction false} HandsBack(s: State)
    requires Inv(s) && s.host.place == B.Loop && !s.call.NoCall?
    ensures Quiet(s, HandedBack(s))
  {
    var a := Next(s, Host(B.Execute));
    QuietStep(s, Host(B.Execute));
    InvStep(s, Host(B.Execute));
    Publishes(a, 1, B.ToGuest);
    var b := MovedTo(s, B.Guest);
    assert MovedTo(a, B.Guest) == b;
    QuietOn(s, a, b);
    QuietStep(b, Resume);
    QuietOn(s, b, HandedBack(s));
  }

  /** A wait up to its queue check. */
  lemma {:induction false} Checks(s: State, desired: set<Signal>, polling: bool)
    requires Inv(s) && s.host.place == B.Block(desired, polling)
    ensures Quiet(s, MovedTo(s, B.Check(desired, polling)))
  {
    var a := Next(s, Host(B.Execute));
    QuietStep(s, Host(B.Execute));
    InvStep(s, Host(B.Execute));
    Publishes(a, 1, B.ToCheck(desired, polling));
    assert MovedTo(a, B.Check(desired, polling)) == MovedTo(s, B.Check(desired, polling));
    QuietOn(s, a, MovedTo(s, B.Check(desired, polling)));
  }

  /** A wait that its queue check ends, up to its scan. */
  lemma {:induction false} Wakes(s: State)
    requires Inv(s) && s.host.place.Check? && !(s.host.mailbox <= s.host.place.desired)
    ensures !s.call.NoCall? && Quiet(s, HandedBack(s))
  {
    assert s.host.mailbox + {} == s.host.mailbox && s.host.noted == {};
    var a := Next(s, Host(B.Execute));
    QuietStep(s, Host(B.Execute));
    InvStep(s, Host(B.Execute));
    var b := s.(host := s.host.(place := B.Restore));
    if s.host.place.polling {
      Publishes(a, 1, B.ToRestore);
      assert MovedTo(a, B.Restore) == b;
      QuietOn(s, a, b);
    }
    assert Inv(b);
    var c := Next(b, Host(B.Execute));
    QuietStep(b, Host(B.Execute));
    InvStep(b, Host(B.Execute));
    QuietOn(s, b, c);
    HandsBack(c);
    assert HandedBack(c) == HandedBack(s);
    QuietOn(s, c, HandedBack(s));
  }

  /** The state when a scan that finds nothing has ended. */
  function Scanned(s: State): State
    requires s.saves != [] && |s.saves| == |s.guest.stack|
  {
    var top := |s.saves| - 1;
    var t := s.(guest := s.guest.(stack := s.guest.stack[..top]), saves := s.saves[..top]);
    if s.saves[top].Some? then PutBack(t, s.saves[top].value) else t
  }

  lemma {:induction false} ScansThrough(s: State, i: int)
    requires Inv(s) && SignalSystem.InGuest(s) && s.guest.stack != [] && 1 <= i <= 65
    requires s.guest.stack[|s.guest.stack| - 1] == D.Scan(i) && s.guest.pending <= s.guest.mask + s.guest.blocked
    ensures Quiet(s, Scanned(s))
    decreases 65 - i
  {
    var top := |s.guest.stack| - 1;
    if i == 65 {
      QuietStep(s, EndScan);
      assert Next(s, EndScan) == Scanned(s);
    } else {
      var t := Next(s, Look);
      assert t == s.(guest := s.guest.(stack := s.guest.stack[top := D.Scan(i + 1)]));
      QuietStep(s, Look);
      InvStep(s, Look);
      ScansThrough(t, i + 1);
      assert t.guest.stack[..top] == s.guest.stack[..top];
      QuietOn(s, t, Scanned(s));
    }
  }

  // ----- Signals 3 and 5 -----

  const HANDLED: Signal -> D.Action := (n: Signal) => D.Handler({}, false, false)

  /** Guest code outside all handlers. */
  function Idle(mask: set<Signal>, native: set<Signal>, pending: set<Signal>, last: Write): State {
    State(B.State(B.Guest, native, {}, {}, pending), D.State(pending, mask, {}, HANDLED, []), [], NoCall, last)
  }

  lemma {:induction false} Starts()
    ensures Reachable(Idle({}, {}, {}, Masked({})))
  {
    var s := Idle({}, {}, {}, Masked({})).(host := B.State(B.Loop, {}, {}, {}, {}), call := Masking({}));
    assert IsRun([s]) && Last([s]) == s;
    ReachableInv(s);
    HandsBack(s);
    assert HandedBack(s) == Idle({}, {}, {}, Masked({}));
    Onward(s, HandedBack(s));
  }

  /** Signal n is recorded while guest code runs. */
  lemma {:induction false} Records(s: State, n: Signal)
    requires Reachable(s) && s.host.place.Guest? && s.host.kernel == {}
    requires n !in s.host.native && n !in B.UNBLOCKABLE
    ensures Reachable(s.(host := s.host.(noted := s.host.noted + {n})))
  {
    ReachableInv(s);
    Goes(s, Host(B.Generate(n)));
    var t := Next(s, Host(B.Generate(n)));
    Goes(t, Host(B.Deliver(n)));
    assert Next(t, Host(B.Deliver(n))) == s.(host := s.host.(noted := s.host.noted + {n}));
  }

  /** A sigprocmask that adds to or takes from the mask, to its end. */
  lemma {:induction false} Masks(s: State, how: How, these: set<Signal>)
    requires Reachable(s) && Can(s, Procmask(how, these))
    ensures Reachable(HandedBack(Next(s, Procmask(how, these))))
  {
    var t := Next(s, Procmask(how, these));
    Goes(s, Procmask(how, these));
    ReachableInv(t);
    HandsBack(t);
    Onward(t, HandedBack(t));
  }

  /** A sigsuspend that a recorded signal ends at once, up to its scan. */
  lemma {:induction false} Suspends(s: State, requested: set<Signal>, n: Signal)
    requires Reachable(s) && Can(s, Suspend(requested))
    requires n in s.host.noted && n !in requested && s.guest.blocked == {}
    ensures Reachable(HandedBack(Next(s, Suspend(requested))))
  {
    var t := Next(s, Suspend(requested));
    Goes(s, Suspend(requested));
    ReachableInv(t);
    assert requested + {} == requested;
    Checks(t, requested, false);
    var u := MovedTo(t, B.Check(requested, false));
    Onward(t, u);
    ReachableInv(u);
    assert n in u.host.mailbox;
    Wakes(u);
    Onward(u, HandedBack(u));
    assert u.host.mailbox + {} == u.host.mailbox && HandedBack(u) == HandedBack(t);
  }

  /** A ppoll without a mask, up to its queue check. */
  lemma {:induction false} Polls(s: State)
    requires Reachable(s) && Can(s, Poll(None)) && s.guest.blocked == {}
    ensures Reachable(MovedTo(Next(s, Poll(None)), B.Check(s.host.native, true)))
  {
    var t := Next(s, Poll(None));
    Goes(s, Poll(None));
    ReachableInv(t);
    Checks(t, s.host.native, true);
    Onward(t, MovedTo(t, B.Check(s.host.native, true)));
  }

  /** Signal 5 is masked on both sides, and is pending if it was recorded first. */
  lemma {:induction false} FiveMasked(pending: set<Signal>)
    requires pending == {} || pending == {5}
    ensures Reachable(Idle({5}, {5}, pending, Masked({5})))
  {
    Starts();
    var s := Idle({}, {}, {}, Masked({}));
    if pending == {5} { Records(s, 5); }
    s := s.(host := s.host.(noted := pending));
    Masks(s, BlockThese, {5});
    var none: set<Signal> := {};
    assert none + {5} == {5} && {5} - B.UNBLOCKABLE == {5} && none + pending == pending;
    assert HandedBack(Next(s, Procmask(BlockThese, {5}))) == Idle({5}, {5}, pending, Masked({5}));
  }

  /** A sigsuspend called with 5 masked: the guest's mask is the wait's until the wait is left. */
  function InWait(requested: set<Signal>, pending: set<Signal>, blocked: set<Signal>, stack: seq<D.Frame>,
                  saves: seq<Option<Save>>): State {
    State(B.State(B.Guest, {5}, {}, {}, pending), D.State(pending, requested, blocked, HANDLED, stack), saves, NoCall,
          Entered(requested, {5}))
  }

  const SAVED: Option<Save> := Some(Save({5}, {5}, Masked({5})))

  lemma {:induction false} WokenByThree(pending: set<Signal>, requested: set<Signal>)
    requires (pending == {} || pending == {5}) && 3 !in requested
    ensures Reachable(InWait(requested, pending + {3}, {}, [D.Scan(1)], [SAVED]))
  {
    FiveMasked(pending);
    var s := Idle({5}, {5}, pending, Masked({5}));
    Records(s, 3);
    var none: set<Signal> := {};
    assert none + {3} == {3} && requested + none == requested;
    s := s.(host := s.host.(noted := {3}));
    Suspends(s, requested, 3);
    assert HandedBack(Next(s, Suspend(requested))) == InWait(requested, pending + {3}, {}, [D.Scan(1)], [SAVED]);
  }

  /** The scan has come to signal n, below 4, with nothing to take. */
  lemma {:induction false} LooksOn(pending: set<Signal>, requested: set<Signal>, n: nat)
    requires (pending == {} || pending == {5}) && 3 !in requested && 1 <= n <= 3
    ensures Reachable(InWait(requested, pending + {3}, {}, [D.Scan(n)], [SAVED]))
  {
    if n == 1 {
      WokenByThree(pending, requested);
    } else {
      LooksOn(pending, requested, n - 1);
      var s := InWait(requested, pending + {3}, {}, [D.Scan(n - 1)], [SAVED]);
      Goes(s, Look);
      assert Next(s, Look) == InWait(requested, pending + {3}, {}, [D.Scan(n)], [SAVED]);
    }
  }

  /** The sigsuspend dispatches 3, whose handler starts. */
  lemma {:induction false} HandlerInWait(pending: set<Signal>, requested: set<Signal>)
    requires (pending == {} || pending == {5}) && 3 !in requested
    ensures Reachable(InWait(requested, pending, {3}, [D.Scan(4), D.Running(3, {}, {}, false)], [SAVED, None]))
  {
    LooksOn(pending, requested, 3);
    var s := InWait(requested, pending + {3}, {}, [D.Scan(3)], [SAVED]);
    Goes(s, Look);
    var none: set<Signal> := {};
    assert (pending + {3}) - {3} == pending && none + {3} == {3};
    assert Next(s, Look) == InWait(requested, pending, {3}, [D.Scan(4), D.Running(3, {}, {}, false)], [SAVED, None]);
  }

  // ----- A handler that changes the mask and returns -----

  /** The history of the guest's mask after such a wait. */
  const RESTORED: Write := Returned(Masked({5}), {5}, {})

  lemma {:induction false} ReturnParts()
    ensures Reachable(Idle({5}, {}, {}, RESTORED))
  {
    HandlerInWait({}, {5});
    var s := InWait({5}, {}, {3}, [D.Scan(4), D.Running(3, {}, {}, false)], [SAVED, None]);
    Masks(s, UnblockThese, {5});
    var t := HandedBack(Next(s, Procmask(UnblockThese, {5})));
    var none: set<Signal> := {};
    assert {5} - {5} == none && none - B.UNBLOCKABLE == none && none + none == none;
    assert t.host == B.State(B.Guest, {}, {}, {}, {}) && t.guest == s.guest.(mask := {});
    Goes(t, EndHandler);
    var u := Next(t, EndHandler);
    ReachableInv(u);
    ScansThrough(u, 4);
    Onward(u, Scanned(u));
    assert Scanned(u) == Idle({5}, {}, {}, RESTORED);
  }

  /** The handler unblocks 5 and returns: the wait puts the old mask back, and the masks disagree. */
  lemma {:induction false} MasksPart() returns (run: seq<State>)
    ensures IsRun(run) && Last(run) == Idle({5}, {}, {}, RESTORED) && !AgreeOutsideWaits(run)
  {
    ReturnParts();
    run :| IsRun(run) && Last(run) == Idle({5}, {}, {}, RESTORED);
    assert Outermost(run[|run| - 1]).None? && 5 in {5} - B.UNBLOCKABLE;
  }

  /** A ppoll without a mask, at its queue check, with the masks apart and signal 5 recorded. */
  function Apart(): State {
    State(B.State(B.Check({}, true), {}, {}, {}, {5}), D.State({5}, {5}, {}, HANDLED, []), [],
          Restoring(Save({5}, {}, RESTORED)), RESTORED)
  }

  lemma {:induction false} PollWithMasksApart()
    ensures Reachable(Apart())
  {
    ReturnParts();
    var s := Idle({5}, {}, {}, RESTORED);
    Records(s, 5);
    s := s.(host := s.host.(noted := {5}));
    Polls(s);
    var none: set<Signal> := {};
    assert none + {5} == {5};
    assert MovedTo(Next(s, Poll(None)), B.Check({}, true)) == Apart();
  }

  lemma {:induction false} NothingDispatched()
    ensures Quiet(Apart(), Idle({5}, {}, {5}, Returned(RESTORED, {}, {})))
  {
    var s := Apart();
    PollWithMasksApart();
    ReachableInv(s);
    assert 5 in s.host.mailbox;
    Wakes(s);
    var t := HandedBack(s);
    Onward(s, t);
    ReachableInv(t);
    ScansThrough(t, 1);
    assert Scanned(t) == Idle({5}, {}, {5}, Returned(RESTORED, {}, {}));
    QuietOn(s, t, Scanned(t));
  }

  /** From then on a ppoll without a mask is woken by signal 5 and dispatches nothing. */
  lemma {:induction false} WakeWithoutDispatch() returns (run: seq<State>, i: nat)
    ensures IsRun(run) && i < |run| - 1 && Code(Last(run)) && Last(run).guest.stack == run[i].guest.stack == []
    ensures run[i].host.place == B.Check({}, true) && !(B.Due(run[i].host) <= {})
    ensures forall m {:trigger run[m]} :: i <= m < |run| ==> 5 in run[m].guest.pending
  {
    PollWithMasksApart();
    NothingDispatched();
    var end := Idle({5}, {}, {5}, Returned(RESTORED, {}, {}));
    var checked :| IsRun(checked) && Last(checked) == Apart();
    var path :| Stretch(path, Apart(), end);
    RunOn(checked, path, end);
    run, i := checked + path[1..], |checked| - 1;
    assert run[i] == Apart() && 5 in B.Due(run[i].host);
    forall m | i <= m < |run|
      ensures 5 in run[m].guest.pending
    {
      assert run[m] == path[m - i];
    }
  }

  // ----- A handler that jumps out -----

  /** The handler of a sigsuspend with an empty mask jumps out of it: the wait's mask stays. */
  lemma {:induction false} JumpOut(pending: set<Signal>)
    requires pending == {} || pending == {5}
    ensures Reachable(Idle({}, {5}, pending, Entered({}, {5})))
  {
    HandlerInWait(pending, {});
    var s := InWait({}, pending, {3}, [D.Scan(4), D.Running(3, {}, {}, false)], [SAVED, None]);
    Goes(s, Jump(0));
    assert Next(s, Jump(0)) == Idle({}, {5}, pending, Entered({}, {5}));
  }

  /** The masks part without any sigprocmask in the handler. */
  lemma {:induction false} MasksPartByJump() returns (run: seq<State>)
    ensures IsRun(run) && Last(run) == Idle({}, {5}, {}, Entered({}, {5})) && !AgreeOutsideWaits(run)
  {
    JumpOut({});
    run :| IsRun(run) && Last(run) == Idle({}, {5}, {}, Entered({}, {5}));
    assert Outermost(run[|run| - 1]).None?;
  }

  /** After such a jump a ppoll without a mask sleeps although signal 5 is pending, the guest's mask
      lets it through and no handler holds it. */
  lemma {:induction false} SleepsOnPending() returns (run: seq<State>)
    ensures IsRun(run) && Last(run).host.place == B.Waiting({5}, true)
    ensures var g := Last(run).guest; 5 in g.pending && 5 !in g.mask && g.blocked == {} && g.stack == []
  {
    JumpOut({5});
    var s := Idle({}, {5}, {5}, Entered({}, {5}));
    Polls(s);
    var none: set<Signal> := {};
    assert {5} + none == {5};
    var checked := State(B.State(B.Check({5}, true), {5}, {}, {}, {5}), D.State({5}, {}, {}, HANDLED, []), [],
                         Restoring(Save({}, {5}, s.last)), s.last);
    assert MovedTo(Next(s, Poll(None)), B.Check({5}, true)) == checked;
    Goes(checked, Host(B.Execute));
    var asleep := checked.(host := checked.host.(place := B.Waiting({5}, true)));
    assert Next(checked, Host(B.Execute)) == asleep;
    run :| IsRun(run) && Last(run) == asleep;
  }
}
