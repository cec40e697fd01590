/** Guest signal dispatch: linux_bash_poll_signals runs handlers as ordinary calls, their code calls
    the bridge, and the bridge polls again, so scans and handlers nest to any depth. */
module SignalDispatch {

  type Signal = n: int | 1 <= n <= 64 witness 1

  datatype Action = Default | Ignore | Handler(mask: set<Signal>, nodefer: bool, once: bool)

  /** One call on the guest's stack: a scan about to look at signal next, or a handler that the scan
      below it has called, with the blocked set it found and the action it was installed by. */
  datatype Frame = Scan(next: int) | Running(number: Signal, saved: set<Signal>, mask: set<Signal>, nodefer: bool)

  datatype State = State(pending: set<Signal>, mask: set<Signal>, blocked: set<Signal>,
                         actions: Signal -> Action, stack: seq<Frame>)

  /** Guest code runs, rather than the scan loop. */
  predicate InGuest(s: State) {
    s.stack == [] || s.stack[|s.stack| - 1].Running?
  }

  /** What a running handler holds: its sa_mask and, unless SA_NODEFER, its own signal. */
  function Guard(number: Signal, mask: set<Signal>, nodefer: bool): set<Signal> {
    mask + if nodefer then {} else {number}
  }

  predicate Eligible(s: State, number: Signal) {
    number in s.pending && number !in s.mask && number !in s.blocked
  }

  datatype Step =
    | Arrive(number: Signal)                        // publish_signals fills the mailbox
    | SetMask(mask: set<Signal>)                    // sigprocmask, sigsuspend, ppoll
    | SetAction(number: Signal, action: Action)
    | Poll                                          // a bridge call returns and starts a scan
    | Look                                          // the scan's next signal
    | EndScan
    | EndHandler
    | Jump(keep: nat)                               // longjmp to guest code with keep frames below it

  predicate Can(s: State, step: Step) {
    match step
    case Arrive(_) => true
    case SetMask(_) => InGuest(s)
    case SetAction(_, _) => InGuest(s)
    case Poll => InGuest(s)
    case Look => !InGuest(s) && 1 <= s.stack[|s.stack| - 1].next <= 64
    case EndScan => !InGuest(s) && s.stack[|s.stack| - 1].next == 65
    case EndHandler => s.stack != [] && InGuest(s)
    case Jump(keep) => InGuest(s) && keep <= |s.stack| && (keep == 0 || s.stack[keep - 1].Running?)
  }

  function Reset(actions: Signal -> Action, number: Signal): Signal -> Action {
    (n: Signal) => if n == number then Default else actions(n)
  }

  /** One turn of the scan loop. */
  function Looked(s: State): State
    requires Can(s, Look)
  {
    var top := |s.stack| - 1;
    var number: Signal := s.stack[top].next;
    var on := s.stack[top := Scan(number + 1)];
    if !Eligible(s, number) then s.(stack := on)
    else
      var action := s.actions(number);
      var t := s.(pending := s.pending - {number}, stack := on);
      if !action.Handler? then t
      else
        t.(actions := if action.once then Reset(s.actions, number) else s.actions,
           blocked := s.blocked + Guard(number, action.mask, action.nodefer),
           stack := on + [Running(number, s.blocked, action.mask, action.nodefer)])
  }

  function Next(s: State, step: Step): State
    requires Can(s, step)
  {
    var top := |s.stack| - 1;
    match step
    case Arrive(n) => s.(pending := s.pending + {n})
    case SetMask(m) => s.(mask := m)
    case SetAction(n, a) => s.(actions := (k: Signal) => if k == n then a else s.actions(k))
    case Poll => s.(stack := s.stack + [Scan(1)])
    case Look => Looked(s)
    case EndScan => s.(stack := s.stack[..top])
    case EndHandler => s.(blocked := s.stack[top].saved, stack := s.stack[..top])
    case Jump(keep) => s.(blocked := {}, stack := s.stack[..keep])
  }

  predicate Initial(s: State) {
    s.blocked == {} && s.stack == []
  }

  ghost predicate Successor(s: State, t: State) {
    exists step :: Can(s, step) && t == Next(s, step)
  }

  /** A longjmp that leaves a handler active whose signals are held. */
  predicate Careless(s: State, step: Step)
    requires Can(s, step)
  {
    step.Jump? && Guards(s.stack[..step.keep]) != {}
  }

  ghost predicate IsRun(run: seq<State>) {
    && |run| > 0 && Initial(run[0])
    && forall i {:trigger Successor(run[i - 1], run[i])} :: 0 < i < |run| ==> Successor(run[i - 1], run[i])
  }

  ghost predicate CleanSuccessor(s: State, t: State) {
    exists step :: Can(s, step) && t == Next(s, step) && !Careless(s, step)
  }

  /** Every longjmp of the run discards all active handlers, or keeps only ones that hold nothing. */
  ghost predicate IsCleanRun(run: seq<State>) {
    && |run| > 0 && Initial(run[0])
    && forall i {:trigger CleanSuccessor(run[i - 1], run[i])} :: 0 < i < |run| ==> CleanSuccessor(run[i - 1], run[i])
  }

  // ----- Invariant -----

  function FrameGuard(f: Frame): set<Signal> {
    if f.Running? then Guard(f.number, f.mask, f.nodefer) else {}
  }

  /** The signals held by the handlers of a stack. */
  function Guards(stack: seq<Frame>): set<Signal> {
    if stack == [] then {} else Guards(stack[..|stack| - 1]) + FrameGuard(stack[|stack| - 1])
  }

  /** Each handler saved what the ones below it hold, and was not one of those signals itself. */
  predicate Proper(stack: seq<Frame>) {
    forall i {:trigger ProperAt(stack, i)} :: 0 <= i < |stack| ==> ProperAt(stack, i)
  }

  predicate ProperAt(stack: seq<Frame>, i: int)
    requires 0 <= i < |stack|
  {
    stack[i].Running? ==> stack[i].saved == Guards(stack[..i]) && stack[i].number !in Guards(stack[..i])
  }

  predicate Guarded(s: State) {
    s.blocked == Guards(s.stack) && Proper(s.stack)
  }

  lemma {:induction false} GuardsPush(stack: seq<Frame>, f: Frame)
    requires Proper(stack)
    requires f.Running? ==> f.saved == Guards(stack) && f.number !in Guards(stack)
    ensures Guards(stack + [f]) == Guards(stack) + FrameGuard(f) && Proper(stack + [f])
  {
    var all := stack + [f];
    assert all[..|stack|] == stack;
    forall i | 0 <= i < |all|
      ensures ProperAt(all, i)
    {
      if i < |stack| {
        assert ProperAt(stack, i);
        assert all[..i] == stack[..i] && all[i] == stack[i];
      }
    }
  }

  lemma {:induction false} GuardsPrefix(stack: seq<Frame>, k: nat)
    requires Proper(stack) && k <= |stack|
    ensures Proper(stack[..k])
  {
    forall i | 0 <= i < k
      ensures ProperAt(stack[..k], i)
    {
      assert ProperAt(stack, i);
      assert stack[..k][..i] == stack[..i] && stack[..k][i] == stack[i];
    }
  }

  /** Moving the topmost scan on changes no guard. */
  lemma {:induction false} GuardsScanOn(stack: seq<Frame>, next: int)
    requires Proper(stack) && stack != [] && stack[|stack| - 1].Scan?
    ensures var on := stack[|stack| - 1 := Scan(next)]; Proper(on) && Guards(on) == Guards(stack)
  {
    var top := |stack| - 1;
    GuardsPrefix(stack, top);
    GuardsPush(stack[..top], Scan(next));
    assert stack[top := Scan(next)] == stack[..top] + [Scan(next)];
  }

  lemma {:induction false} LookGuarded(s: State)
    requires Guarded(s) && Can(s, Look)
    ensures Guarded(Looked(s))
  {
    var top := |s.stack| - 1;
    var number: Signal := s.stack[top].next;
    GuardsScanOn(s.stack, number + 1);
    if Eligible(s, number) && s.actions(number).Handler? {
      HandlerGuarded(s, number, s.actions(number).mask, s.actions(number).nodefer);
    }
  }

  lemma {:induction false} HandlerGuarded(s: State, number: Signal, mask: set<Signal>, nodefer: bool)
    requires Guarded(s) && !InGuest(s) && number !in s.blocked
    ensures var on := s.stack[|s.stack| - 1 := Scan(number + 1)] + [Running(number, s.blocked, mask, nodefer)];
      Guards(on) == s.blocked + Guard(number, mask, nodefer) && Proper(on)
  {
    GuardsScanOn(s.stack, number + 1);
    GuardsPush(s.stack[|s.stack| - 1 := Scan(number + 1)], Running(number, s.blocked, mask, nodefer));
  }

  /** Every step keeps the blocked set equal to what the active handlers hold, except exactly the
      longjmps that keep a handler which holds something. */
  lemma {:induction false} GuardedStep(s: State, step: Step)
    requires Guarded(s) && Can(s, step)
    ensures Guarded(Next(s, step)) <==> !Careless(s, step)
  {
    var top := |s.stack| - 1;
    if step.Look? {
      LookGuarded(s);
    } else if step.Poll? {
      GuardsPush(s.stack, Scan(1));
    } else if step.EndScan? || step.EndHandler? {
      GuardsPrefix(s.stack, top);
      assert ProperAt(s.stack, top);
    } else if step.Jump? {
      GuardsPrefix(s.stack, step.keep);
    }
  }

  lemma {:induction false} GuardedAlways(run: seq<State>, i: nat)
    requires IsCleanRun(run) && i < |run|
    ensures Guarded(run[i])
  {
    if i > 0 {
      GuardedAlways(run, i - 1);
      assert CleanSuccessor(run[i - 1], run[i]);
      var step :| Can(run[i - 1], step) && run[i] == Next(run[i - 1], step) && !Careless(run[i - 1], step);
      GuardedStep(run[i - 1], step);
    }
  }

  // ----- Results -----

  lemma {:induction false} GuardsGrow(stack: seq<Frame>, i: nat, j: nat)
    requires i < j <= |stack|
    ensures FrameGuard(stack[i]) <= Guards(stack[..j])
    decreases j
  {
    assert stack[..j][..j - 1] == stack[..j - 1];
    if i < j - 1 {
      GuardsGrow(stack, i, j - 1);
    }
  }

  /** In a clean run, a handler never starts on top of one that holds its signal: not for a signal in
      an active handler's sa_mask, and twice for the same signal only under SA_NODEFER. */
  lemma {:induction false} HeldSignalsWait(run: seq<State>, k: nat, i: nat, j: nat)
    requires IsCleanRun(run) && k < |run| && i < j < |run[k].stack|
    requires run[k].stack[i].Running? && run[k].stack[j].Running?
    ensures run[k].stack[j].number !in run[k].stack[i].mask
    ensures run[k].stack[i].number == run[k].stack[j].number ==> run[k].stack[i].nodefer
  {
    GuardedAlways(run, k);
    assert ProperAt(run[k].stack, j);
    GuardsGrow(run[k].stack, i, j);
  }

  /** How many active handlers hold their own signal. */
  function Depth(stack: seq<Frame>): nat {
    if stack == [] then 0
    else
      var top := stack[|stack| - 1];
      Depth(stack[..|stack| - 1]) + if top.Running? && !top.nodefer then 1 else 0
  }

  /** Each of them adds a signal to the held ones that was not held below it. */
  lemma {:induction false} DepthBelowGuards(stack: seq<Frame>)
    requires Proper(stack)
    ensures Depth(stack) <= |Guards(stack)|
  {
    if stack != [] {
      var n := |stack| - 1;
      GuardsPrefix(stack, n);
      DepthBelowGuards(stack[..n]);
      assert ProperAt(stack, n);
      if stack[n].Running? && !stack[n].nodefer {
        SubsetSize(Guards(stack[..n]) + {stack[n].number}, Guards(stack));
      } else {
        SubsetSize(Guards(stack[..n]), Guards(stack));
      }
    }
  }

  lemma {:induction false} SubsetSize<T>(a: set<T>, b: set<T>)
    requires a <= b
    ensures |a| <= |b|
  {
    assert b == a + (b - a);
  }

  lemma {:induction false} AtMost(s: set<Signal>, n: nat)
    requires forall x :: x in s ==> x <= n
    ensures |s| <= n
  {
    if n == 0 {
      assert s == {};
    } else if n <= 64 {
      AtMost(s - {n}, n - 1);
      assert s <= (s - {n}) + {n};
      SubsetSize(s, (s - {n}) + {n});
    } else {
      AtMost(s, n - 1);
    }
  }

  /** In a clean run, handlers that hold their own signal nest at most 64 deep. */
  lemma {:induction false} NestingIsBounded(run: seq<State>, k: nat)
    requires IsCleanRun(run) && k < |run|
    ensures Depth(run[k].stack) <= 64
  {
    GuardedAlways(run, k);
    DepthBelowGuards(run[k].stack);
    AtMost(Guards(run[k].stack), 64);
  }

  lemma {:induction false} BelowUntouched(s: State, t: State, n: nat)
    requires Successor(s, t) && n <= |s.stack| && (n == |s.stack| ==> InGuest(s)) && n <= |t.stack|
    ensures t.stack[..n] == s.stack[..n]
  {
  }

  lemma {:induction false} StackBelow(run: seq<State>, i: nat, j: nat)
    requires IsRun(run) && i <= j < |run| && InGuest(run[i])
    requires forall k :: i < k < j ==> |run[k].stack| > |run[i].stack|
    requires |run[j].stack| >= |run[i].stack|
    ensures run[j].stack[..|run[i].stack|] == run[i].stack
    decreases j
  {
    if i < j {
      StackBelow(run, i, j - 1);
      BelowUntouched(run[j - 1], run[j], |run[i].stack|);
    }
  }

  lemma {:induction false} CleanIsRun(run: seq<State>)
    requires IsCleanRun(run)
    ensures IsRun(run)
  {
    forall i | 0 < i < |run|
      ensures Successor(run[i - 1], run[i])
    {
      assert CleanSuccessor(run[i - 1], run[i]);
    }
  }

  /** In a clean run, when a bridge call has returned to the guest code that made it, whatever was
      dispatched meanwhile, the blocked set is what it was. */
  lemma {:induction false} BlockedIsRestored(run: seq<State>, i: nat, j: nat)
    requires IsCleanRun(run) && i < j < |run| && InGuest(run[i])
    requires forall k :: i < k < j ==> |run[k].stack| > |run[i].stack|
    requires |run[j].stack| == |run[i].stack|
    ensures run[j].stack == run[i].stack && run[j].blocked == run[i].blocked
  {
    CleanIsRun(run);
    StackBelow(run, i, j);
    assert run[j].stack[..|run[i].stack|] == run[j].stack;
    GuardedAlways(run, i);
    GuardedAlways(run, j);
  }

  // ----- Productive scans -----

  /** A scan is running and a signal that it may take is still ahead of it. */
  ghost predicate WillTake(s: State) {
    !InGuest(s) && exists n: Signal :: Eligible(s, n) && s.stack[|s.stack| - 1].next <= n
  }

  ghost predicate Took(s: State, t: State) {
    exists n: Signal :: n in s.pending && t.pending == s.pending - {n}
  }

  lemma {:induction false} ScanGoesOn(s: State, t: State)
    requires WillTake(s) && Successor(s, t)
    ensures (WillTake(t) && |t.stack| == |s.stack|) || Took(s, t)
  {
    var step :| Can(s, step) && t == Next(s, step);
    var n: Signal :| Eligible(s, n) && s.stack[|s.stack| - 1].next <= n;
    if step.Look? && s.stack[|s.stack| - 1].next == n {
      assert n in s.pending && t.pending == s.pending - {n};
    } else if step.Look? && !Eligible(s, s.stack[|s.stack| - 1].next) {
      assert Eligible(t, n) && t.stack[|t.stack| - 1].next <= n;
    } else if step.Arrive? {
      assert Eligible(t, n) && t.stack[|t.stack| - 1].next <= n;
    }
  }

  /** A scan that has a signal to take does not end before it has taken a pending bit. */
  lemma {:induction false} ScanIsProductive(run: seq<State>, i: nat, j: nat) returns (k: nat)
    requires IsRun(run) && i < j < |run| && WillTake(run[i]) && |run[j].stack| < |run[i].stack|
    ensures i <= k < j && Took(run[k], run[k + 1])
    decreases j - i
  {
    var n := i + 1;
    assert Successor(run[n - 1], run[n]);
    ScanGoesOn(run[i], run[i + 1]);
    if Took(run[i], run[i + 1]) {
      k := i;
    } else {
      k := ScanIsProductive(run, i + 1, j);
    }
  }

  // ----- What a longjmp that keeps an active handler costs -----

  lemma {:induction false} Extend(run: seq<State>, step: Step) returns (more: seq<State>)
    requires IsRun(run) && Can(run[|run| - 1], step)
    ensures more == run + [Next(run[|run| - 1], step)] && IsRun(more)
  {
    more := run + [Next(run[|run| - 1], step)];
    forall i | 0 < i < |more|
      ensures Successor(more[i - 1], more[i])
    {
      if i < |run| {
        assert Successor(run[i - 1], run[i]);
      } else {
        assert more[i - 1] == run[|run| - 1];
      }
    }
  }

  /** The handler of signal 1 is interrupted by signal 2, whose handler jumps back into it. The jump
      clears the blocked set, and the next signal 1 starts its handler a second time although it is
      still active and was not installed with SA_NODEFER. */
  lemma {:induction false} JumpIntoHandlerReenters() returns (run: seq<State>)
    ensures IsRun(run)
    ensures var stack := run[|run| - 1].stack;
            |stack| == 4 && stack[1] == Running(1, {}, {}, false) && stack[3] == Running(1, {}, {}, false)
  {
    var actions := (n: Signal) => Handler({}, false, false);
    var s := State({}, {}, {}, actions, []);
    run := [s];
    run := Extend(run, Arrive(1));
    run := Extend(run, Poll);
    run := Extend(run, Look);
    assert run[3] == State({}, {}, {1}, actions, [Scan(2), Running(1, {}, {}, false)]);
    run := Extend(run, Arrive(2));
    run := Extend(run, Poll);
    run := Extend(run, Look);
    run := Extend(run, Look);
    assert run[7] == State({}, {}, {1, 2}, actions,
                           [Scan(2), Running(1, {}, {}, false), Scan(3), Running(2, {1}, {}, false)]);
    run := Extend(run, Jump(2));
    assert run[8] == State({}, {}, {}, actions, [Scan(2), Running(1, {}, {}, false)]);
    run := Extend(run, Arrive(1));
    run := Extend(run, Poll);
    run := Extend(run, Look);
  }

  /** Consecutive states, from any state on. */
  ghost predicate IsPath(path: seq<State>) {
    && |path| > 0
    && forall i {:trigger Successor(path[i - 1], path[i])} :: 0 < i < |path| ==> Successor(path[i - 1], path[i])
  }

  lemma {:induction false} Continue(path: seq<State>, step: Step) returns (more: seq<State>)
    requires IsPath(path) && Can(path[|path| - 1], step)
    ensures more == path + [Next(path[|path| - 1], step)] && IsPath(more)
  {
    more := path + [Next(path[|path| - 1], step)];
    forall i | 0 < i < |more|
      ensures Successor(more[i - 1], more[i])
    {
      if i < |path| {
        assert Successor(path[i - 1], path[i]);
      } else {
        assert more[i - 1] == path[|path| - 1];
      }
    }
  }

  lemma {:induction false} HeldByFrame(stack: seq<Frame>, n: Signal) returns (i: nat)
    requires n in Guards(stack)
    ensures i < |stack| && n in FrameGuard(stack[i])
  {
    if n in FrameGuard(stack[|stack| - 1]) {
      i := |stack| - 1;
    } else {
      i := HeldByFrame(stack[..|stack| - 1], n);
    }
  }

  predicate AllowsOnly(mask: set<Signal>, n: Signal) {
    forall m: Signal :: m in mask <==> m != n
  }

  lemma {:induction false} Through(n: nat) returns (s: set<Signal>)
    requires n <= 64
    ensures forall m: Signal :: m in s <==> m <= n
  {
    if n == 0 {
      s := {};
    } else {
      s := Through(n - 1);
      s := s + {n};
    }
  }

  /** With everything but n masked, a scan goes on to n. */
  lemma {:induction false} ScanReaches(path: seq<State>, n: Signal, k: int) returns (more: seq<State>)
    requires IsPath(path) && !InGuest(path[|path| - 1])
    requires var s := path[|path| - 1]; s.stack[|s.stack| - 1] == Scan(k) && 1 <= k <= n
    requires AllowsOnly(path[|path| - 1].mask, n)
    ensures IsPath(more) && path <= more
    ensures var s := path[|path| - 1]; more[|more| - 1] == s.(stack := s.stack[|s.stack| - 1 := Scan(n)])
    decreases n - k
  {
    if k == n {
      more := path;
    } else {
      var m: Signal := k;
      more := Continue(path, Look);
      more := ScanReaches(more, n, k + 1);
    }
  }

  /** Guest code holding nothing that allows only n and has it pending and handled. */
  lemma {:induction false} OnlyAllows(path: seq<State>, n: Signal) returns (more: seq<State>)
    requires IsPath(path) && InGuest(path[|path| - 1]) && path[|path| - 1].blocked == {}
    ensures IsPath(more) && path <= more
    ensures var s, t := path[|path| - 1], more[|more| - 1];
      && t.stack == s.stack && t.blocked == {} && n in t.pending
      && t.actions(n) == Handler({}, true, false)
      && AllowsOnly(t.mask, n)
  {
    more := Continue(path, SetAction(n, Handler({}, true, false)));
    var all := Through(64);
    more := Continue(more, SetMask(all - {n}));
    more := Continue(more, Arrive(n));
  }

  lemma {:induction false} HandlerStarts(path: seq<State>, n: Signal) returns (more: seq<State>)
    requires IsPath(path) && InGuest(path[|path| - 1])
    requires var s := path[|path| - 1];
      s.blocked == {} && n in s.pending && AllowsOnly(s.mask, n) && s.actions(n) == Handler({}, true, false)
    ensures IsPath(more) && path <= more
    ensures more[|more| - 1].stack == path[|path| - 1].stack + [Scan(n + 1), Running(n, {}, {}, true)]
  {
    var s := path[|path| - 1];
    more := Continue(path, Poll);
    more := ScanReaches(more, n, 1);
    assert more[|more| - 1] == s.(stack := s.stack + [Scan(n)]);
    more := Continue(more, Look);
  }

  /** The converse of HeldSignalsWait: after every longjmp that keeps a handler which holds something,
      whatever the state it started from, a signal so held can start its handler on top of it. */
  lemma {:induction false} CarelessJumpLetsIn(s: State, keep: nat) returns (path: seq<State>, i: nat, n: Signal)
    requires Can(s, Jump(keep)) && Careless(s, Jump(keep))
    ensures IsPath(path) && |path| > 1 && path[0] == s && path[1] == Next(s, Jump(keep))
    ensures var stack := path[|path| - 1].stack;
      && |stack| == keep + 2 && stack[..keep] == s.stack[..keep]
      && stack[keep + 1].Running? && stack[keep + 1].number == n
      && i < keep && n in FrameGuard(stack[i])
  {
    n :| n in Guards(s.stack[..keep]);
    i := HeldByFrame(s.stack[..keep], n);
    path := Continue([s], Jump(keep));
    path := OnlyAllows(path, n);
    path := HandlerStarts(path, n);
  }
}
