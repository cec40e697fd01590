/** The last moments before read or write enters the kernel. The transfer routine is a list of
    instructions; a signal can land before any of them once signals are unblocked, and its
    recorder runs as steps of its own that further signals can interrupt. */
module SignalIo {

  const EINTR: int := 4

  /** The next instruction of the interrupted thread. Test, Branch and Trap are the window
      from signal_io_begin up to signal_io_end; Branch remembers what Test loaded. */
  datatype Instruction =
    | ClearFlag | Arm | Unmask | Enter | Test | Branch(seen: bool) | Trap | InKernel
    | Return | Cancel | CancelReturn | Disarm | Finished

  predicate InWindow(pc: Instruction) {
    pc.Test? || pc.Branch? || pc.Trap?
  }

  /** The next statement of one activation of the recorder. */
  datatype Stage = Record | CheckActive | SetFlag | Redirect | Leave

  /** pc is the interrupted thread's program counter, in a register while no recorder runs and in the
      bottom recorder's saved context otherwise. */
  datatype State = State(pc: Instruction, stack: seq<Stage>, active: bool, interrupted: bool, result: int,
                         count: nat, moved: nat, landed: nat, returned: bool)

  /** A transfer of count bytes whose queue check found nothing, with all signals still blocked. */
  predicate Initial(s: State) {
    s.pc == ClearFlag && s.stack == [] && !s.active && s.moved == 0 && s.landed == 0 && !s.returned && s.count > 0
  }

  predicate Unblocked(pc: Instruction) {
    !pc.ClearFlag? && !pc.Arm? && !pc.Unmask?
  }

  datatype Step =
    | Execute                        // the next instruction of the thread
    | Transfer(bytes: nat)           // the kernel moves bytes
    | Complete                       // the kernel returns what it moved
    | Fail(error: int)               // the kernel returns an error, having moved nothing
    | Resume                         // the kernel restarts the call itself, no handler involved
    | Land                           // a signal arrives outside the kernel
    | LandInKernel(restart: bool)    // a signal arrives inside it; SA_RESTART rewinds to the trap
    | Recorder                       // the topmost recorder's next statement

  predicate Can(s: State, step: Step) {
    match step
    case Execute => s.stack == [] && !s.pc.InKernel? && !s.pc.Finished?
    case Transfer(n) => s.stack == [] && s.pc.InKernel? && 0 < n && s.moved + n <= s.count
    case Complete => s.stack == [] && s.pc.InKernel?
    case Fail(e) => s.stack == [] && s.pc.InKernel? && s.moved == 0 && e > 0 && e != EINTR
    case Resume => s.stack == [] && s.pc.InKernel? && s.moved == 0
    case Land => Unblocked(s.pc) && (s.pc.InKernel? ==> s.stack != [])
    case LandInKernel(_) => s.stack == [] && s.pc.InKernel?
    case Recorder => s.stack != []
  }

  function Executed(s: State): State
    requires Can(s, Execute)
  {
    match s.pc
    case ClearFlag => s.(interrupted := false, pc := Arm)
    case Arm => s.(active := true, pc := Unmask)
    case Unmask => s.(pc := Enter)
    case Enter => s.(pc := Test)
    case Test => s.(pc := Branch(s.interrupted))
    case Branch(seen) => s.(pc := if seen then Cancel else Trap)
    case Trap => s.(pc := InKernel)
    case Return => s.(pc := Disarm)
    case Cancel => s.(result := -EINTR, pc := CancelReturn)
    case CancelReturn => s.(pc := Disarm)
    case Disarm => s.(active := false, pc := Finished)
  }

  function Recorded(s: State): State
    requires Can(s, Recorder)
  {
    var top := |s.stack| - 1;
    match s.stack[top]
    case Record => s.(stack := s.stack[top := CheckActive])
    case CheckActive => s.(stack := s.stack[top := if s.active then SetFlag else Leave])
    case SetFlag => s.(interrupted := true, stack := s.stack[top := Redirect])
    case Redirect =>
      // Only the bottom recorder interrupted the thread itself; the others see a recorder's address.
      s.(pc := if top == 0 && InWindow(s.pc) then Cancel else s.pc, stack := s.stack[top := Leave])
    case Leave => s.(stack := s.stack[..top], landed := s.landed + 1)
  }

  function Next(s: State, step: Step): State
    requires Can(s, step)
  {
    match step
    case Execute => Executed(s)
    case Transfer(n) => s.(moved := s.moved + n)
    case Complete => s.(result := s.moved, pc := Return, returned := true)
    case Fail(e) => s.(result := -e, pc := Return, returned := true)
    case Resume => s.(pc := Trap)
    case Land => s.(stack := s.stack + [Record])
    case LandInKernel(restart) =>
      if s.moved > 0 then s.(result := s.moved, pc := Return, returned := true, stack := [Record])
      else if restart then s.(pc := Trap, stack := [Record])
      else s.(result := -EINTR, pc := Return, returned := true, stack := [Record])
    case Recorder => Recorded(s)
  }

  ghost predicate Successor(s: State, t: State) {
    exists step :: Can(s, step) && t == Next(s, step)
  }

  ghost predicate IsRun(run: seq<State>) {
    && |run| > 0 && Initial(run[0])
    && forall i {:trigger Successor(run[i - 1], run[i])} :: 0 < i < |run| ==> Successor(run[i - 1], run[i])
  }

  // ----- Invariant -----

  /** From here the thread cannot enter the kernel any more. */
  predicate Safe(pc: Instruction) {
    match pc
    case Branch(seen) => seen
    case Trap => false
    case InKernel => false
    case _ => true
  }

  /** The bottom recorder still has its redirection of the thread ahead of it. */
  predicate WillRedirect(s: State) {
    s.stack != [] && (s.stack[0].Record? || s.stack[0].CheckActive? || s.stack[0].SetFlag? || s.stack[0].Redirect?)
  }

  predicate Armed(pc: Instruction) {
    !pc.ClearFlag? && !pc.Arm? && !pc.Finished?
  }

  /** The thread left through signal_io_cancel. */
  predicate Cancelled(s: State) {
    s.pc.CancelReturn? || ((s.pc.Disarm? || s.pc.Finished?) && !s.returned)
  }

  predicate Inv(s: State) {
    && s.active == Armed(s.pc)
    && (!Unblocked(s.pc) || s.pc.InKernel? ==> s.stack == [])
    && (!Unblocked(s.pc) ==> s.landed == 0 && (s.interrupted ==> s.pc.ClearFlag?))
    // Once the flag is set or a recorder has started, the thread is kept out of the kernel.
    && (Armed(s.pc) && (s.interrupted || s.stack != []) ==> Safe(s.pc) || WillRedirect(s))
    && (Armed(s.pc) && s.landed > 0 ==> s.interrupted)
    && (forall i :: 0 <= i < |s.stack| && Armed(s.pc) && (s.stack[i].Redirect? || s.stack[i].Leave?) ==> s.interrupted)
    // Bytes move during one stay in the kernel, and their number is what is returned.
    && s.moved <= s.count
    && (s.moved > 0 ==> s.pc.InKernel? || s.returned)
    && (s.returned ==> s.pc.Return? || s.pc.Disarm? || s.pc.Finished?)
    && (s.pc.Return? ==> s.returned)
    && (s.returned ==> s.result == s.moved || (s.moved == 0 && s.result < 0))
    && (Cancelled(s) ==> s.result == -EINTR && s.moved == 0)
  }

  lemma {:induction false} InvStep(s: State, step: Step)
    requires Inv(s) && Can(s, step)
    ensures Inv(Next(s, step))
  {
    if step.Recorder? {
      RecorderStep(s);
    } else if step.Execute? {
      ExecuteStep(s);
    }
  }

  lemma {:induction false} RecorderStep(s: State)
    requires Inv(s) && Can(s, Recorder)
    ensures Inv(Recorded(s))
  {
    var top := |s.stack| - 1;
    assert s.stack[top].Leave? ==> Recorded(s).stack == s.stack[..top];
  }

  lemma {:induction false} ExecuteStep(s: State)
    requires Inv(s) && Can(s, Execute)
    ensures Inv(Executed(s))
  {
  }

  lemma {:induction false} InvSuccessor(s: State, t: State)
    requires Inv(s) && Successor(s, t)
    ensures Inv(t)
  {
    var step :| Can(s, step) && t == Next(s, step);
    InvStep(s, step);
  }

  lemma {:induction false} InvAlways(run: seq<State>, i: nat)
    requires IsRun(run) && i < |run|
    ensures Inv(run[i])
  {
    if i > 0 {
      InvAlways(run, i - 1);
      InvSuccessor(run[i - 1], run[i]);
    }
  }

  // ----- Results -----

  /** In every run, the system call instruction is only reached by a thread whose flag is clear and
      after whose queue check no signal has been recorded; so no recorded signal is left waiting
      for a blocked transfer. */
  lemma {:induction false} KernelEnteredOnlyUninterrupted(run: seq<State>, i: nat)
    requires IsRun(run) && i < |run|
    ensures run[i].pc.Trap? && run[i].stack == [] ==> !run[i].interrupted && run[i].landed == 0
    ensures run[i].pc.InKernel? ==> !run[i].interrupted && run[i].landed == 0 && run[i].stack == []
  {
    InvAlways(run, i);
  }

  /** In every run, a finished transfer reports exactly the bytes the kernel moved, however many
      signals landed afterwards, and an error, EINTR among them, only if it moved none. */
  lemma {:induction false} ResultIsExact(run: seq<State>, i: nat)
    requires IsRun(run) && i < |run| && run[i].pc.Finished?
    ensures run[i].result == run[i].moved || (run[i].moved == 0 && run[i].result < 0)
    ensures run[i].result == -EINTR ==> run[i].moved == 0
    ensures !run[i].returned ==> run[i].result == -EINTR
  {
    InvAlways(run, i);
  }

  /** A signal has landed since the transfer was armed. */
  predicate Struck(s: State) {
    s.pc.Finished? || (Armed(s.pc) && (s.interrupted || s.stack != []))
  }

  /** What a transfer that a signal has struck keeps from s to t. */
  predicate Settled(s: State, t: State) {
    t.moved == s.moved && t.returned == s.returned && (s.returned ==> t.result == s.result)
  }

  lemma {:induction false} StruckSuccessor(s: State, t: State)
    requires Inv(s) && Struck(s) && Successor(s, t)
    ensures Struck(t) && Settled(s, t)
  {
    var step :| Can(s, step) && t == Next(s, step);
    assert !s.pc.InKernel?;
    if step.Recorder? {
      assert s.stack[|s.stack| - 1].Leave? && Armed(s.pc) ==> s.interrupted;
    }
  }

  /** A signal that lands after the queue check and before the kernel call has returned, wherever it
      finds the thread, ends the transfer without another entry into the kernel: with the count if
      the call had returned one, with EINTR and nothing moved otherwise. */
  lemma {:induction false} LandingEndsTransfer(run: seq<State>, i: nat, j: nat)
    requires IsRun(run) && i <= j < |run| && Struck(run[i])
    ensures Struck(run[j]) && !run[j].pc.InKernel? && Settled(run[i], run[j])
    ensures !run[i].returned && run[j].pc.Finished? ==> run[j].result == -EINTR && run[j].moved == 0
    decreases j
  {
    InvAlways(run, j);
    if i < j {
      LandingEndsTransfer(run, i, j - 1);
      InvAlways(run, j - 1);
      StruckSuccessor(run[j - 1], run[j]);
    }
  }
}
