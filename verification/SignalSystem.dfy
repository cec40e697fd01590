/** Both halves of signal delivery together: the guest's own mask, which sigsuspend and ppoll save,
    replace and put back around a bridge call, and the scan that runs before they put it back. */
module SignalSystem {
  import opened Common
  import D = SignalDispatch
  import B = SignalBridge

  type Signal = D.Signal

  /** How the guest's mask got its value: from a sigprocmask, from the wait that is in progress, with
      the native mask it found, or put back by a wait that returned, with the native mask that wait
      found and the one its handlers left. */
  datatype Write =
    | Masked(mask: set<Signal>)
    | Entered(mask: set<Signal>, native: set<Signal>)
    | Returned(before: Write, found: set<Signal>, left: set<Signal>)

  /** What a wait puts back when it returns, the native mask it found, and the write before it. */
  datatype Save = Save(mask: set<Signal>, native: set<Signal>, before: Write)

  /** The bridge call in progress and what its wrapper does when the host is done: nothing,
      a scan, a new mask, or a scan and then the old mask. */
  datatype Call = NoCall | Plain | Masking(mask: set<Signal>) | Restoring(save: Save)

  /** saves has an entry for each frame of the guest's stack: that of a scan made by a wait is the
      wait's. last records the last write of the guest's mask. */
  datatype State = State(host: B.State, guest: D.State, saves: seq<Option<Save>>, call: Call, last: Write)

  datatype How = BlockThese | UnblockThese | SetThese | Query

  function Apply(how: How, these: set<Signal>, mask: set<Signal>): set<Signal> {
    match how
    case BlockThese => mask + these
    case UnblockThese => mask - these
    case SetThese => these
    case Query => mask
  }

  /** The mask pointer that the guest's ppoll hands to the host. */
  function Sent(mask: Option<set<Signal>>, guest: set<Signal>, blocked: set<Signal>): Option<set<Signal>> {
    if blocked != {} then Some(OrElse(mask, guest) + blocked) else mask
  }

  function OrElse(mask: Option<set<Signal>>, default: set<Signal>): set<Signal> {
    if mask.Some? then mask.value else default
  }

  datatype Step =
    | Host(step: B.Step)                       // the kernel, the recorder or the host's thread
    | Resume                                   // the host hands control back
    | Look | EndScan | EndHandler | Jump(keep: nat)
    | SetAction(number: Signal, action: D.Action)
    | Procmask(how: How, these: set<Signal>)
    | Suspend(requested: set<Signal>)
    | Poll(mask: Option<set<Signal>>)
    | Serve                                    // any other bridge call

  predicate InGuest(s: State) {
    s.call.NoCall? && s.host.place.Guest?
  }

  /** Guest code runs. */
  predicate Code(s: State) {
    InGuest(s) && D.InGuest(s.guest)
  }

  predicate Can(s: State, step: Step) {
    match step
    case Host(b) => (b.Generate? || b.Deliver? || b.Ready? || b.Execute?) && B.Can(s.host, b)
    case Resume => !s.call.NoCall? && s.host.place.Guest?
    case Look => InGuest(s) && D.Can(s.guest, D.Look)
    case EndScan => InGuest(s) && D.Can(s.guest, D.EndScan)
    case EndHandler => InGuest(s) && D.Can(s.guest, D.EndHandler)
    case Jump(keep) => InGuest(s) && D.Can(s.guest, D.Jump(keep))
    case SetAction(_, _) => Code(s)
    case Procmask(_, _) => Code(s)
    case Suspend(_) => Code(s)
    case Poll(_) => Code(s)
    case Serve => Code(s)
  }

  /** The wrapper of a wait: the mask it writes, if any, and the mask the host waits under. */
  function Waits(s: State, mask: Option<set<Signal>>, desired: set<Signal>, polling: bool): State
    requires Code(s)
  {
    s.(guest := s.guest.(mask := OrElse(mask, s.guest.mask)), host := B.Next(s.host, B.Wait(desired, polling)),
       call := Restoring(Save(s.guest.mask, s.host.native, s.last)),
       last := if mask.Some? then Entered(mask.value, s.host.native) else s.last)
  }

  function Top(saves: seq<Option<Save>>): Option<Save> {
    if saves == [] then None else saves[|saves| - 1]
  }

  function Below(saves: seq<Option<Save>>, n: nat): seq<Option<Save>> {
    if n <= |saves| then saves[..n] else saves
  }

  /** The end of a wait's wrapper. */
  function PutBack(s: State, save: Save): State {
    s.(guest := s.guest.(mask := save.mask), last := Returned(save.before, save.native, s.host.native))
  }

  function Resumed(s: State): State
    requires Can(s, Resume)
  {
    match s.call
    case Plain => s.(call := NoCall, guest := s.guest.(stack := s.guest.stack + [D.Scan(1)]), saves := s.saves + [None])
    case Masking(mask) => s.(call := NoCall, guest := s.guest.(mask := mask), last := Masked(mask))
    case Restoring(save) =>
      s.(call := NoCall, guest := s.guest.(stack := s.guest.stack + [D.Scan(1)]), saves := s.saves + [Some(save)])
  }

  function Next(s: State, step: Step): State
    requires Can(s, step)
  {
    match step
    case Host(b) => s.(host := B.Next(s.host, b), guest := s.guest.(pending := B.Next(s.host, b).mailbox))
    case Resume => Resumed(s)
    case Look =>
      var g := D.Next(s.guest, D.Look);
      s.(guest := g, host := s.host.(mailbox := g.pending),
         saves := if |g.stack| > |s.guest.stack| then s.saves + [None] else s.saves)
    case EndScan =>
      var g := D.Next(s.guest, D.EndScan);
      var t := s.(guest := g, saves := Below(s.saves, |g.stack|));
      if Top(s.saves).Some? then PutBack(t, Top(s.saves).value) else t
    case EndHandler =>
      var g := D.Next(s.guest, D.EndHandler);
      s.(guest := g, saves := Below(s.saves, |g.stack|))
    case Jump(keep) => s.(guest := D.Next(s.guest, D.Jump(keep)), saves := Below(s.saves, keep))
    case SetAction(n, a) => s.(guest := D.Next(s.guest, D.SetAction(n, a)))
    case Procmask(how, these) =>
      var mask := Apply(how, these, s.host.native);
      s.(host := B.Next(s.host, B.Procmask(mask - B.UNBLOCKABLE)), call := Masking(mask))
    case Suspend(requested) =>
      var sent := requested + s.guest.blocked;
      Waits(s, Some(sent), sent, false)
    case Poll(mask) =>
      var sent := Sent(mask, s.guest.mask, s.guest.blocked);
      Waits(s, sent, OrElse(sent, s.host.native), true)
    case Serve => s.(host := B.Next(s.host, B.Serve), call := Plain)
  }

  /** The masks of both sides say the same about every signal that is ever recorded. */
  predicate Agree(mask: set<Signal>, native: set<Signal>) {
    mask - B.UNBLOCKABLE == native
  }

  /** The guest is started like the return of a call that is followed by no scan. */
  predicate Initial(s: State) {
    && B.Initial(s.host) && D.Initial(s.guest) && s.guest.pending == {}
    && s.saves == [] && s.call == Masking(s.guest.mask) && s.last == Masked(s.guest.mask)
    && Agree(s.guest.mask, s.host.native)
  }

  ghost predicate Successor(s: State, t: State) {
    exists step :: Can(s, step) && t == Next(s, step)
  }

  ghost predicate IsRun(run: seq<State>) {
    && |run| > 0 && Initial(run[0])
    && forall i {:trigger Successor(run[i - 1], run[i])} :: 0 < i < |run| ==> Successor(run[i - 1], run[i])
  }

  // ----- Invariant -----

  /** The mask of the wait that the host's thread is in, before it wakes. */
  function Desired(place: B.Place): Option<set<Signal>> {
    match place
    case Block(desired, _) => Some(desired)
    case Check(desired, _) => Some(desired)
    case Waiting(desired, _) => Some(desired)
    case Publish(_, _, after) => if after.ToCheck? then Some(after.desired) else None
    case _ => None
  }

  predicate Polling(place: B.Place) {
    match place
    case Block(_, polling) => polling
    case Check(_, polling) => polling
    case Waiting(_, polling) => polling
    case Publish(_, _, after) => after.ToCheck? && after.polling
    case _ => false
  }

  /** A wait's mask holds what the handlers hold. It is the guest's own, except that a ppoll without
      a mask, called when nothing is held, leaves both masks and waits under the native one. */
  predicate WaitsRight(s: State, desired: set<Signal>) {
    && s.call.Restoring? && s.guest.blocked <= desired
    && (s.guest.mask == desired
        || (&& s.guest.blocked == {} && desired == s.host.native && Polling(s.host.place)
            && s.call.save.mask == s.guest.mask && s.call.save.native == s.host.native))
  }

  /** Only scans have something to put back. */
  predicate Aligned(saves: seq<Option<Save>>, stack: seq<D.Frame>) {
    && |saves| == |stack|
    && forall i {:trigger saves[i]} :: 0 <= i < |saves| && stack[i].Running? ==> saves[i].None?
  }

  /** Guest code, not another scan, is below every scan. */
  predicate Nested(stack: seq<D.Frame>) {
    forall i {:trigger stack[i]} :: 0 < i < |stack| && stack[i].Scan? ==> stack[i - 1].Running?
  }

  predicate Inv(s: State) {
    && B.Inv(s.host) && s.host.mailbox == s.guest.pending
    && Aligned(s.saves, s.guest.stack) && Nested(s.guest.stack)
    && (s.call.NoCall? ==> s.host.place.Guest?)
    && (!s.call.NoCall? ==> D.InGuest(s.guest))
    && (Desired(s.host.place).Some? ==> WaitsRight(s, Desired(s.host.place).value))
  }

  lemma {:induction false} InvHost(s: State, b: B.Step)
    requires Inv(s) && Can(s, Host(b))
    ensures Inv(Next(s, Host(b)))
  {
    assert B.Successor(s.host, B.Next(s.host, b));
    B.InvSuccessor(s.host, B.Next(s.host, b));
  }

  lemma {:induction false} LookTakes(g: D.State)
    requires D.Can(g, D.Look)
    ensures var t := D.Next(g, D.Look);
      && t.pending <= g.pending && t.mask == g.mask
      && |g.stack| <= |t.stack| <= |g.stack| + 1
  {
  }

  lemma {:induction false} InvCall(s: State, step: Step)
    requires Inv(s) && Can(s, step)
    requires step.Procmask? || step.Suspend? || step.Poll? || step.Serve? || step.SetAction?
    ensures Inv(Next(s, step))
  {
  }

  lemma {:induction false} InvStep(s: State, step: Step)
    requires Inv(s) && Can(s, step)
    ensures Inv(Next(s, step))
  {
    match step
    case Host(b) => InvHost(s, b);
    case Resume =>
    case Look => LookTakes(s.guest);
    case EndScan =>
    case EndHandler =>
    case Jump(_) =>
    case Procmask(_, _) => InvCall(s, step);
    case Suspend(_) => InvCall(s, step);
    case Poll(_) => InvCall(s, step);
    case Serve => InvCall(s, step);
    case SetAction(_, _) => InvCall(s, step);
  }

  lemma {:induction false} InvAlways(run: seq<State>, i: nat)
    requires IsRun(run) && i < |run|
    ensures Inv(run[i])
  {
    if i > 0 {
      InvAlways(run, i - 1);
      assert Successor(run[i - 1], run[i]);
      var step :| Can(run[i - 1], step) && run[i] == Next(run[i - 1], step);
      InvStep(run[i - 1], step);
    }
  }

  // ----- Each half is a run of its own machine -----

  ghost predicate GuestMoves(g: D.State, g': D.State) {
    g' == g || D.Successor(g, g') || exists mid :: D.Successor(g, mid) && D.Successor(mid, g')
  }

  lemma {:induction false} HostProjects(s: State, b: B.Step)
    requires Inv(s) && Can(s, Host(b))
    ensures GuestMoves(s.guest, Next(s, Host(b)).guest) && B.Successor(s.host, Next(s, Host(b)).host)
  {
    var t := Next(s, Host(b));
    if t.host.mailbox == s.host.mailbox {
      assert t.guest == s.guest;
    } else {
      var n: Signal := s.host.place.i;
      assert t.guest == D.Next(s.guest, D.Arrive(n));
    }
  }

  /** Every step is a step of the host's machine or leaves it alone, and is at most two steps of the
      dispatch machine: what is proved of either holds in the whole system. */
  lemma {:induction false} StepProjects(s: State, step: Step)
    requires Inv(s) && Can(s, step)
    ensures var t := Next(s, step);
      (t.host == s.host || B.Successor(s.host, t.host)) && GuestMoves(s.guest, t.guest)
  {
    var t := Next(s, step);
    match step
    case Host(b) => HostProjects(s, b);
    case Resume =>
      if s.call.Masking? {
        assert t.guest == D.Next(s.guest, D.SetMask(s.call.mask));
      } else {
        assert t.guest == D.Next(s.guest, D.Poll);
      }
    case Look =>
      assert t.guest == D.Next(s.guest, D.Look);
      LookProjects(s);
    case EndScan =>
      var mid := D.Next(s.guest, D.EndScan);
      assert D.Successor(s.guest, mid);
      if Top(s.saves).Some? {
        assert t.guest == D.Next(mid, D.SetMask(Top(s.saves).value.mask));
        assert D.Successor(mid, t.guest);
      }
    case EndHandler => assert t.guest == D.Next(s.guest, D.EndHandler);
    case Jump(keep) => assert t.guest == D.Next(s.guest, D.Jump(keep));
    case SetAction(n, a) => assert t.guest == D.Next(s.guest, D.SetAction(n, a));
    case Procmask(_, _) => assert t.host == B.Next(s.host, B.Procmask(t.host.native));
    case Suspend(_) => WaitProjects(s, step);
    case Poll(_) => WaitProjects(s, step);
    case Serve => assert t.host == B.Next(s.host, B.Serve);
  }

  lemma {:induction false} LookProjects(s: State)
    requires Inv(s) && Can(s, Look)
    ensures var t := Next(s, Look); t.host == s.host || B.Successor(s.host, t.host)
  {
    var t := Next(s, Look);
    var n: Signal := s.guest.stack[|s.guest.stack| - 1].next;
    assert t.host == s.host || t.host == B.Next(s.host, B.Take(n));
  }

  lemma {:induction false} WaitProjects(s: State, step: Step)
    requires Can(s, step) && (step.Suspend? || step.Poll?)
    ensures var t := Next(s, step); B.Successor(s.host, t.host) && D.Successor(s.guest, t.guest)
  {
    var t := Next(s, step);
    assert t.guest == D.Next(s.guest, D.SetMask(t.guest.mask));
    assert t.host == B.Next(s.host, B.Wait(t.host.place.desired, t.host.place.polling));
  }

  // ----- Where the guest's mask comes from -----

  /** The value that a write gave the guest's mask. */
  function Written(w: Write): set<Signal> {
    match w
    case Masked(mask) => mask
    case Entered(mask, _) => mask
    case Returned(before, _, _) => Written(before)
  }

  /** The native mask when it was written. */
  function NativeAt(w: Write): set<Signal> {
    match w
    case Masked(mask) => mask - B.UNBLOCKABLE
    case Entered(_, native) => native
    case Returned(_, _, left) => left
  }

  /** Whether a write leaves the two masks in step, by what the program did: a sigprocmask does; the
      mask of a wait does if it is the native mask; a wait that returns does if the masks were in step
      when it was called and its handlers left the native mask alone, or if they were not and its
      handlers made the native mask the one it puts back. */
  predicate InStep(w: Write) {
    match w
    case Masked(_) => true
    case Entered(mask, native) => Agree(mask, native)
    case Returned(before, found, left) =>
      if InStep(before) then left == found else Agree(Written(before), left)
  }

  /** Each wait of the history found the native mask that the write before it left. */
  predicate Chained(w: Write) {
    w.Returned? ==> w.found == NativeAt(w.before) && Chained(w.before)
  }

  lemma {:induction false} InStepIsAgreement(w: Write)
    requires Chained(w)
    ensures InStep(w) <==> Agree(Written(w), NativeAt(w))
  {
    if w.Returned? { InStepIsAgreement(w.before); }
  }

  predicate Recorded(save: Save) {
    save.mask == Written(save.before) && save.native == NativeAt(save.before) && Chained(save.before)
  }

  /** The history is that of the masks there are. */
  predicate Traced(s: State) {
    && s.guest.mask == Written(s.last) && Chained(s.last)
    && (if s.call.Masking? then Agree(s.call.mask, s.host.native) else s.host.native == NativeAt(s.last))
    && (s.call.Restoring? ==> Recorded(s.call.save))
    && forall i {:trigger s.saves[i]} :: 0 <= i < |s.saves| && s.saves[i].Some? ==> Recorded(s.saves[i].value)
  }

  lemma {:induction false} TracedStep(s: State, step: Step)
    requires Inv(s) && Traced(s) && Can(s, step)
    ensures Traced(Next(s, step))
  {
    if step.Look? { LookTakes(s.guest); }
  }

  lemma {:induction false} TracedAlways(run: seq<State>, i: nat)
    requires IsRun(run) && i < |run|
    ensures Traced(run[i])
  {
    if i > 0 {
      TracedAlways(run, i - 1);
      InvAlways(run, i - 1);
      assert Successor(run[i - 1], run[i]);
      var step :| Can(run[i - 1], step) && run[i] == Next(run[i - 1], step);
      TracedStep(run[i - 1], step);
    }
  }

  /** In every run, whenever the guest has control, inside waits too, its mask agrees with the native one
      if and only if the last write of it left them in step. */
  lemma {:induction false} AgreeIffInStep(run: seq<State>, i: nat)
    requires IsRun(run) && i < |run| && InGuest(run[i])
    ensures Agree(run[i].guest.mask, run[i].host.native) <==> InStep(run[i].last)
  {
    TracedAlways(run, i);
    InStepIsAgreement(run[i].last);
  }

  /** The step from s to t made the write w: a sigprocmask came back, a wait was called, or one returned. */
  predicate Wrote(s: State, t: State, w: Write) {
    match w
    case Masked(mask) => s.call == Masking(mask) && t.call.NoCall?
    case Entered(mask, native) => Code(s) && t.call.Restoring? && t.guest.mask == mask && s.host.native == native
    case Returned(before, found, left) =>
      && InGuest(s) && !D.InGuest(s.guest) && t.guest.stack == s.guest.stack[..|s.guest.stack| - 1]
      && Top(s.saves) == Some(Save(t.guest.mask, found, before)) && s.host.native == left
  }

  /** The record is true: the last write it names was made, and the mask has not been written since. */
  lemma {:induction false} LastWriteHappened(run: seq<State>, j: nat) returns (i: nat)
    requires IsRun(run) && j < |run|
    ensures i <= j && (i == 0 || Wrote(run[i - 1], run[i], run[j].last))
    ensures forall k {:trigger run[k]} :: i <= k <= j ==> run[k].guest.mask == run[i].guest.mask
  {
    if j == 0 {
      i := 0;
    } else {
      InvAlways(run, j - 1);
      assert Successor(run[j - 1], run[j]);
      var step :| Can(run[j - 1], step) && run[j] == Next(run[j - 1], step);
      WroteOrKept(run[j - 1], step);
      if Wrote(run[j - 1], run[j], run[j].last) {
        i := j;
      } else {
        i := LastWriteHappened(run, j - 1);
      }
    }
  }

  lemma {:induction false} WroteOrKept(s: State, step: Step)
    requires Inv(s) && Can(s, step)
    ensures var t := Next(s, step);
      Wrote(s, t, t.last) || (t.last == s.last && t.guest.mask == s.guest.mask)
  {
    if step.Look? { LookTakes(s.guest); }
  }

  // ----- When the two masks agree -----

  function FirstSave(saves: seq<Option<Save>>): Option<Save> {
    if saves == [] then None
    else
      var below := FirstSave(saves[..|saves| - 1]);
      if below.Some? then below else saves[|saves| - 1]
  }

  /** The outermost wait that has not returned yet. */
  function Outermost(s: State): Option<Save> {
    if FirstSave(s.saves).Some? then FirstSave(s.saves)
    else if s.call.Restoring? then Some(s.call.save)
    else None
  }

  /** The mask that guest code has when no wait is in progress. */
  function GuestMask(s: State): set<Signal> {
    if s.call.Masking? then s.call.mask else s.guest.mask
  }

  lemma {:induction false} FirstSaveAppend(saves: seq<Option<Save>>, save: Option<Save>)
    ensures FirstSave(saves + [save]) == if FirstSave(saves).Some? then FirstSave(saves) else save
  {
    assert (saves + [save])[..|saves|] == saves;
  }

  lemma {:induction false} FirstSaveBelow(saves: seq<Option<Save>>, k: nat)
    requires k <= |saves|
    ensures FirstSave(saves[..k]).Some? ==> FirstSave(saves[..k]) == FirstSave(saves)
    decreases |saves|
  {
    if k < |saves| {
      var front := saves[..|saves| - 1];
      assert front[..k] == saves[..k];
      FirstSaveBelow(front, k);
    } else {
      assert saves[..k] == saves;
    }
  }

  /** How one step changes the outermost wait. */
  ghost predicate WaitStep(s: State, t: State) {
    if Outermost(s).None? then
      if Outermost(t).None? then Agree(GuestMask(s), s.host.native) ==> Agree(GuestMask(t), t.host.native)
      else Outermost(t).value.mask == GuestMask(s) && Outermost(t).value.native == s.host.native
    else if Outermost(t).None? then
      && InGuest(s) && t.host.native == s.host.native
      && GuestMask(t) == (if D.InGuest(s.guest) then s.guest.mask else Outermost(s).value.mask)
    else Outermost(t) == Outermost(s)
  }

  lemma {:induction false} CallWaits(s: State, step: Step)
    requires Inv(s) && Can(s, step)
    requires step.Host? || step.Procmask? || step.Suspend? || step.Poll? || step.Serve? || step.SetAction?
    ensures WaitStep(s, Next(s, step))
  {
  }

  lemma {:induction false} ReturnWaits(s: State, step: Step)
    requires Inv(s) && Can(s, step) && (step.EndScan? || step.EndHandler? || step.Jump?)
    ensures WaitStep(s, Next(s, step))
  {
    var n := if step.Jump? then step.keep else |s.saves| - 1;
    FirstSaveBelow(s.saves, n);
    assert Next(s, step).saves == s.saves[..n];
    var below := FirstSave(s.saves[..n]);
    if !step.Jump? { assert FirstSave(s.saves) == if below.Some? then below else s.saves[n]; }
  }

  lemma {:induction false} WaitStepHolds(s: State, step: Step)
    requires Inv(s) && Can(s, step)
    ensures WaitStep(s, Next(s, step))
  {
    if step.EndScan? || step.EndHandler? || step.Jump? {
      ReturnWaits(s, step);
    } else if step.Resume? {
      FirstSaveAppend(s.saves, if s.call.Restoring? then Some(s.call.save) else None);
    } else if step.Look? {
      FirstSaveAppend(s.saves, None);
      LookTakes(s.guest);
    } else {
      CallWaits(s, step);
    }
  }

  /** The masks agree whenever no wait is in progress. */
  ghost predicate AgreeOutsideWaits(run: seq<State>) {
    forall i {:trigger Outermost(run[i])} :: 0 <= i < |run| && Outermost(run[i]).None? ==>
      Agree(GuestMask(run[i]), run[i].host.native)
  }

  /** The step after s leaves the outermost wait. */
  predicate Leaves(s: State, t: State) {
    Outermost(s).Some? && Outermost(t).None?
  }

  /** A wait that returns finds the native mask as it was when it was called. One that is jumped out of
      is left with the masks in step: since it began a sigprocmask was the last to write the guest's
      mask, or its own mask is the native one, or an inner wait put such a mask back. */
  predicate LeavesWell(s: State)
    requires Outermost(s).Some?
  {
    if D.InGuest(s.guest) then InStep(s.last) else s.host.native == Outermost(s).value.native
  }

  ghost predicate WaitsLeaveWell(run: seq<State>) {
    forall i {:trigger Leaves(run[i - 1], run[i])} :: 0 < i < |run| && Leaves(run[i - 1], run[i]) ==>
      LeavesWell(run[i - 1])
  }

  /** The masks agree, or did when the outermost wait was called. */
  ghost predicate AgreedLast(s: State) {
    if Outermost(s).None? then Agree(GuestMask(s), s.host.native)
    else Agree(Outermost(s).value.mask, Outermost(s).value.native)
  }

  lemma {:induction false} AgreedLastStep(run: seq<State>, i: nat)
    requires IsRun(run) && 0 < i < |run| && AgreedLast(run[i - 1])
    ensures Leaves(run[i - 1], run[i]) ==> (LeavesWell(run[i - 1]) <==> Agree(GuestMask(run[i]), run[i].host.native))
    ensures !Leaves(run[i - 1], run[i]) ==> AgreedLast(run[i])
  {
    InvAlways(run, i - 1);
    assert Successor(run[i - 1], run[i]);
    var step :| Can(run[i - 1], step) && run[i] == Next(run[i - 1], step);
    WaitStepHolds(run[i - 1], step);
    if Leaves(run[i - 1], run[i]) { AgreeIffInStep(run, i - 1); }
  }

  lemma {:induction false} AgreedLastWhileWell(run: seq<State>, i: nat)
    requires IsRun(run) && i < |run| && WaitsLeaveWell(run)
    ensures AgreedLast(run[i])
  {
    if i > 0 {
      AgreedLastWhileWell(run, i - 1);
      AgreedLastStep(run, i);
    }
  }

  lemma {:induction false} AgreedLastWhileAgreeing(run: seq<State>, i: nat)
    requires IsRun(run) && i < |run| && AgreeOutsideWaits(run)
    ensures AgreedLast(run[i])
  {
    if i > 0 {
      AgreedLastWhileAgreeing(run, i - 1);
      AgreedLastStep(run, i);
      assert Outermost(run[i]).None? ==> Agree(GuestMask(run[i]), run[i].host.native);
    }
  }

  /** Over a whole run, the guest's mask agrees with the native one at every moment outside waits if
      and only if the handlers dispatched in a wait leave the native mask as the wait found it when they
      return, and leave the masks in step when they jump out of it. */
  lemma {:induction false} MasksAgreeIff(run: seq<State>)
    requires IsRun(run)
    ensures AgreeOutsideWaits(run) <==> WaitsLeaveWell(run)
  {
    if WaitsLeaveWell(run) {
      forall i | 0 <= i < |run| && Outermost(run[i]).None?
        ensures Agree(GuestMask(run[i]), run[i].host.native)
      {
        AgreedLastWhileWell(run, i);
      }
    }
    if AgreeOutsideWaits(run) {
      forall i | 0 < i < |run| && Leaves(run[i - 1], run[i])
        ensures LeavesWell(run[i - 1])
      {
        AgreedLastWhileAgreeing(run, i - 1);
        AgreedLastStep(run, i);
        assert Outermost(run[i]).None?;
      }
    }
  }

  // ----- Jumping out of a wait -----

  /** The step from s to t calls a wait. */
  predicate Called(s: State, t: State) {
    Code(s) && t.call.Restoring?
  }

  /** The step from s to t ends a sigprocmask. */
  predicate Completed(s: State, t: State) {
    s.call.Masking? && t.call.NoCall?
  }

  /** In the wait that was called with size frames on the stack, and in no wait inside it. */
  predicate Inside(s: State, size: nat) {
    && |s.saves| >= size && (s.call.Restoring? <==> |s.saves| == size)
    && forall m {:trigger s.saves[m]} :: size < m < |s.saves| ==> s.saves[m].None?
  }

  lemma {:induction false} InsideStep(s: State, step: Step, size: nat)
    requires Inv(s) && Can(s, step) && Inside(s, size)
    requires var t := Next(s, step); !Called(s, t) && (t.call.Restoring? || |t.saves| > size)
    ensures var t := Next(s, step);
      Inside(t, size) && if Completed(s, t) then t.last.Masked? else t.last == s.last
  {
    if step.Look? { LookTakes(s.guest); }
  }

  ghost predicate MaskedBetween(run: seq<State>, i: nat, j: nat)
    requires j < |run|
  {
    exists k {:trigger Completed(run[k - 1], run[k])} :: i < k <= j && Completed(run[k - 1], run[k])
  }

  /** From i to j the run is in one wait, that was called just before i, and calls no other. */
  ghost predicate OneWait(run: seq<State>, i: nat, j: nat)
    requires i <= j < |run|
  {
    && run[i].call.Restoring?
    && (forall k {:trigger Called(run[k - 1], run[k])} :: i < k <= j ==> !Called(run[k - 1], run[k]))
    && (forall k {:trigger run[k]} :: i <= k <= j ==> run[k].call.Restoring? || |run[k].saves| > |run[i].saves|)
  }

  lemma {:induction false} InsideOn(run: seq<State>, i: nat, j: nat)
    requires IsRun(run) && i <= j < |run| && OneWait(run, i, j)
    ensures Inside(run[j], |run[i].saves|)
    ensures if MaskedBetween(run, i, j) then run[j].last.Masked? else run[j].last == run[i].last
    decreases j
  {
    if i < j {
      assert OneWait(run, i, j - 1);
      InsideOn(run, i, j - 1);
      InvAlways(run, j - 1);
      assert !Called(run[j - 1], run[j]) && Successor(run[j - 1], run[j]);
      var step :| Can(run[j - 1], step) && run[j] == Next(run[j - 1], step);
      InsideStep(run[j - 1], step, |run[i].saves|);
      MaskedGrows(run, i, j);
    }
  }

  lemma {:induction false} MaskedGrows(run: seq<State>, i: nat, j: nat)
    requires i < j < |run|
    ensures MaskedBetween(run, i, j) <==> MaskedBetween(run, i, j - 1) || Completed(run[j - 1], run[j])
  {
    if MaskedBetween(run, i, j) {
      var k :| i < k <= j && Completed(run[k - 1], run[k]);
      assert k == j || k <= j - 1;
    }
  }

  /** A handler that jumps out of a wait, having called no other wait, leaves masks that agree if and
      only if a sigprocmask has completed since the wait began, or the wait's own mask agrees with the
      native mask it found. The jump itself changes neither mask. */
  lemma {:induction false} JumpOutAgreesIff(run: seq<State>, i: nat, j: nat, keep: nat)
    requires IsRun(run) && 0 < i <= j < |run| && Called(run[i - 1], run[i]) && OneWait(run, i, j)
    requires Can(run[j], Jump(keep))
    ensures var t := Next(run[j], Jump(keep));
      Agree(t.guest.mask, t.host.native) <==>
        MaskedBetween(run, i, j) || Agree(run[i].guest.mask, run[i - 1].host.native)
  {
    InsideOn(run, i, j);
    AgreeIffInStep(run, j);
    TracedAlways(run, i);
    InStepIsAgreement(run[i].last);
    assert Successor(run[i - 1], run[i]);
  }

  // ----- Wakes that lead somewhere -----

  /** The scan with which a wait resumes takes a bit if and only if one is pending outside the guest's
      mask during the wait, whatever mask the host waited under. */
  lemma {:induction false} ScanTakesIff(s: State)
    requires Inv(s) && Can(s, Resume) && s.call.Restoring?
    ensures D.WillTake(Next(s, Resume).guest) <==> !(s.guest.pending <= s.guest.mask + s.guest.blocked)
  {
    var g := Next(s, Resume).guest;
    if !(s.guest.pending <= s.guest.mask + s.guest.blocked) {
      var n :| n in s.guest.pending && n !in s.guest.mask + s.guest.blocked;
      assert D.Eligible(g, n);
    }
  }

  /** On the way from a wake back to the guest, with n due. */
  predicate Returning(s: State, n: Signal) {
    && s.call.Restoring? && n in B.Due(s.host)
    && match s.host.place
       case Guest => n in s.host.mailbox
       case Check(desired, _) => n !in desired
       case Publish(_, _, after) => !after.ToCheck?
       case Restore => true
       case Loop => true
       case _ => false
  }

  /** On the way from a wake to the scan that takes a bit: n is due and nothing holds it. */
  predicate Heading(s: State, n: Signal, size: nat) {
    && n !in s.guest.mask && n !in s.guest.blocked
    && if s.call.NoCall? then
         && !D.InGuest(s.guest) && |s.guest.stack| == size + 1
         && n in s.guest.pending && s.guest.stack[size].next <= n
       else
         Returning(s, n) && |s.guest.stack| == size
  }

  lemma {:induction false} ReturningInHost(s: State, b: B.Step, n: Signal)
    requires Inv(s) && Can(s, Host(b)) && Returning(s, n)
    ensures Returning(Next(s, Host(b)), n)
  {
  }

  lemma {:induction false} HeadingInHost(s: State, b: B.Step, n: Signal, size: nat)
    requires Inv(s) && Can(s, Host(b)) && Heading(s, n, size)
    ensures Heading(Next(s, Host(b)), n, size)
  {
    if !s.call.NoCall? { ReturningInHost(s, b, n); }
  }

  lemma {:induction false} HeadingInScan(s: State, n: Signal, size: nat)
    requires Inv(s) && Can(s, Look) && Heading(s, n, size)
    ensures Heading(Next(s, Look), n, size) || D.Took(s.guest, Next(s, Look).guest)
  {
    var m: Signal := s.guest.stack[size].next;
    if D.Eligible(s.guest, m) {
      assert m in s.guest.pending && Next(s, Look).guest.pending == s.guest.pending - {m};
    } else {
      assert m != n;
    }
  }

  lemma {:induction false} HeadingStep(s: State, step: Step, n: Signal, size: nat)
    requires Inv(s) && Can(s, step) && Heading(s, n, size)
    ensures Heading(Next(s, step), n, size) || D.Took(s.guest, Next(s, step).guest)
  {
    if step.Host? {
      HeadingInHost(s, step.step, n, size);
    } else if step.Look? {
      HeadingInScan(s, n, size);
    }
  }

  lemma {:induction false} HeadingTakes(run: seq<State>, i: nat, k: nat, n: Signal, size: nat) returns (m: nat)
    requires IsRun(run) && i < k < |run| && Heading(run[i], n, size) && !Heading(run[k], n, size)
    ensures i <= m < k && D.Took(run[m].guest, run[m + 1].guest)
    decreases k - i
  {
    var j := i + 1;
    InvAlways(run, i);
    assert Successor(run[j - 1], run[j]);
    var step :| Can(run[i], step) && run[j] == Next(run[i], step);
    HeadingStep(run[i], step, n, size);
    if Heading(run[j], n, size) {
      m := HeadingTakes(run, j, k, n, size);
    } else {
      m := i;
    }
  }

  lemma {:induction false} ReturningOn(run: seq<State>, i: nat, j: nat, n: Signal)
    requires IsRun(run) && i <= j < |run| && Returning(run[i], n)
    requires forall m {:trigger run[m]} :: i <= m < j ==> !run[m].host.place.Guest?
    ensures Returning(run[j], n)
    decreases j
  {
    if i < j {
      ReturningOn(run, i, j - 1, n);
      InvAlways(run, j - 1);
      assert Successor(run[j - 1], run[j]);
      var step :| Can(run[j - 1], step) && run[j] == Next(run[j - 1], step);
      ReturningInHost(run[j - 1], step.step, n);
    }
  }

  /** What ends a wait by the queue check is in the mailbox when the guest runs again. */
  lemma {:induction false} WakeReachesGuest(run: seq<State>, i: nat, j: nat, n: Signal)
    requires IsRun(run) && i < j < |run| && run[j].host.place.Guest?
    requires run[i].host.place.Check? && n in B.Due(run[i].host) && n !in run[i].host.place.desired
    requires forall m {:trigger run[m]} :: i <= m < j ==> !run[m].host.place.Guest?
    ensures n in run[j].guest.pending
  {
    InvAlways(run, i);
    ReturningOn(run, i, j, n);
    InvAlways(run, j);
  }

  /** A signal that ends a wait by the host's queue check is dispatched: if one is due outside the
      wait's mask and the guest's own mask holds nothing outside that mask, then before the wait
      returns to the code that called it, or is jumped out of, its scan takes a pending bit. */
  lemma {:induction false} WakesAreProductive(run: seq<State>, i: nat, k: nat) returns (m: nat)
    requires IsRun(run) && i < k < |run|
    requires run[i].host.place.Check? && !(B.Due(run[i].host) <= run[i].host.place.desired)
    requires run[i].guest.mask - B.UNBLOCKABLE <= run[i].host.place.desired
    requires Code(run[k]) && |run[k].guest.stack| <= |run[i].guest.stack|
    ensures i <= m < k && D.Took(run[m].guest, run[m + 1].guest)
  {
    InvAlways(run, i);
    var n :| n in B.Due(run[i].host) && n !in run[i].host.place.desired;
    m := HeadingTakes(run, i, k, n, |run[i].guest.stack|);
  }

  /** So every wake of sigsuspend, of a ppoll that is given a mask and of one called under a handler's
      guard is productive; and a ppoll without a mask is too, outside other waits, in a run whose
      waits all leave the masks as they found them. */
  lemma {:induction false} WakesAreDispatched(run: seq<State>, i: nat, k: nat) returns (m: nat)
    requires IsRun(run) && i < k < |run|
    requires run[i].host.place.Check? && !(B.Due(run[i].host) <= run[i].host.place.desired)
    requires
      || !run[i].host.place.polling
      || run[i].guest.mask == run[i].host.place.desired
      || run[i].guest.blocked != {}
      || (WaitsLeaveWell(run) && FirstSave(run[i].saves).None?)
    requires Code(run[k]) && |run[k].guest.stack| <= |run[i].guest.stack|
    ensures i <= m < k && D.Took(run[m].guest, run[m + 1].guest)
  {
    InvAlways(run, i);
    if run[i].guest.mask != run[i].host.place.desired {
      AgreedLastWhileWell(run, i);
      assert Outermost(run[i]) == Some(run[i].call.save);
    }
    m := WakesAreProductive(run, i, k);
  }

  /** And no such wait sleeps on a due signal that the guest's own mask lets through. */
  lemma {:induction false} SleepsOnlyOnMasked(run: seq<State>, i: nat)
    requires IsRun(run) && i < |run| && run[i].host.place.Waiting?
    requires
      || !run[i].host.place.polling
      || run[i].guest.mask == run[i].host.place.desired
      || run[i].guest.blocked != {}
      || (WaitsLeaveWell(run) && FirstSave(run[i].saves).None?)
    ensures B.Due(run[i].host) <= run[i].guest.mask
  {
    InvAlways(run, i);
    if run[i].guest.mask != run[i].host.place.desired {
      AgreedLastWhileWell(run, i);
      assert Outermost(run[i]) == Some(run[i].call.save);
    }
  }
}
