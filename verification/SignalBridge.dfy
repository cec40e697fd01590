/** The host half of signal delivery: an asynchronous recorder fills an array, the main thread moves
    it into the mailbox, and two waits must not sleep through a signal that was recorded already. */
module SignalBridge {
  import SignalDispatch

  type Signal = SignalDispatch.Signal

  /** What the thread does once it has published. */
  datatype After = ToGuest | ToCheck(desired: set<Signal>, polling: bool) | ToRestore

  /** The main thread. Publish(i, moved, _) is publish_signals at signal i, whose bit is already in the
      mailbox but not yet out of the array if moved. */
  datatype Place =
    | Guest
    | Block(desired: set<Signal>, polling: bool)
    | Publish(i: int, moved: bool, after: After)
    | Check(desired: set<Signal>, polling: bool)
    | Waiting(desired: set<Signal>, polling: bool)
    | Restore
    | Loop

  /** native is the thread's own mask, kernel holds the signals generated but not yet delivered,
      noted is the recorder's array. */
  datatype State = State(place: Place, native: set<Signal>, kernel: set<Signal>,
                         noted: set<Signal>, mailbox: set<Signal>)

  /** SIGKILL and SIGSTOP: Linux leaves them out of every mask and acts on them without a handler. */
  const UNBLOCKABLE: set<Signal> := {9, 19}

  /** The signals recorded and not yet taken by the guest. */
  function Due(s: State): set<Signal> {
    s.noted + s.mailbox
  }

  predicate Initial(s: State) {
    s.place == Loop && s.kernel == {} && s.noted == {} && s.mailbox == {}
  }

  /** Whether delivery of a signal is held back where the thread is. */
  predicate Masked(s: State, n: Signal) {
    match s.place
    case Guest => n in s.native
    case Block(_, _) => n in s.native
    case Loop => n in s.native
    case Waiting(desired, _) => n in desired
    case Publish(_, _, _) => true
    case Check(_, _) => true
    case Restore => true
  }

  datatype Step =
    | Generate(n: Signal)
    | Deliver(n: Signal)                              // the recorder runs; a wait ends
    | Ready                                           // ppoll returns for a descriptor or its timeout
    | Execute                                         // the host's next statement
    | Take(n: Signal)                                 // guest dispatch takes a bit
    | Procmask(native: set<Signal>)                   // BR_SIGMASK
    | Wait(desired: set<Signal>, polling: bool)       // BR_SIGSUSPEND, BR_POLL
    | Serve                                           // any other bridge call

  predicate Can(s: State, step: Step) {
    match step
    case Generate(n) => n !in UNBLOCKABLE
    case Deliver(n) => n in s.kernel && !Masked(s, n)
    case Ready => s.place.Waiting? && s.place.polling
    case Execute => !s.place.Guest? && !s.place.Waiting?
    case Take(n) => s.place.Guest? && n in s.mailbox
    case Procmask(_) => s.place.Guest?
    case Wait(_, _) => s.place.Guest?
    case Serve => s.place.Guest?
  }

  /** Where a finished wait goes on: ppoll's caller publishes once more, sigsuspend's does not. */
  function Woken(polling: bool): Place {
    if polling then Publish(1, false, ToRestore) else Restore
  }

  function Executed(s: State): State
    requires Can(s, Execute)
  {
    match s.place
    case Block(desired, polling) => s.(place := Publish(1, false, ToCheck(desired, polling)))
    case Publish(i, moved, after) =>
      if 1 <= i <= 64 then
        if moved then s.(noted := s.noted - {i}, place := Publish(i + 1, false, after))
        else if i in s.noted then s.(mailbox := s.mailbox + {i}, place := Publish(i, true, after))
        else s.(place := Publish(i + 1, false, after))
      else
        s.(place := match after
                    case ToGuest => Guest
                    case ToCheck(desired, polling) => Check(desired, polling)
                    case ToRestore => Restore)
    case Check(desired, polling) =>
      if s.mailbox <= desired then s.(place := Waiting(desired, polling)) else s.(place := Woken(polling))
    case Restore => s.(place := Loop)
    case Loop => s.(place := Publish(1, false, ToGuest))
  }

  function Next(s: State, step: Step): State
    requires Can(s, step)
  {
    match step
    case Generate(n) => s.(kernel := s.kernel + {n})
    case Deliver(n) =>
      s.(kernel := s.kernel - {n}, noted := s.noted + {n},
         place := if s.place.Waiting? then Woken(s.place.polling) else s.place)
    case Ready => s.(place := Woken(s.place.polling))
    case Execute => Executed(s)
    case Take(n) => s.(mailbox := s.mailbox - {n})
    case Procmask(native) => s.(native := native, place := Loop)
    case Wait(desired, polling) => s.(place := Block(desired, polling))
    case Serve => s.(place := Loop)
  }

  ghost predicate Successor(s: State, t: State) {
    exists step :: Can(s, step) && t == Next(s, step)
  }

  ghost predicate IsRun(run: seq<State>) {
    && |run| > 0 && Initial(run[0])
    && forall i {:trigger Successor(run[i - 1], run[i])} :: 0 < i < |run| ==> Successor(run[i - 1], run[i])
  }

  // ----- Invariant -----

  predicate Emptied(noted: set<Signal>, i: int) {
    forall k :: k in noted ==> k >= i
  }

  predicate Inv(s: State) {
    s.kernel + s.noted + s.mailbox !! UNBLOCKABLE &&
    match s.place
    case Guest => true
    case Block(_, _) => true
    case Publish(i, moved, _) =>
      1 <= i <= 65 && Emptied(s.noted, i) && (moved ==> i <= 64 && i in s.noted && i in s.mailbox)
    case Check(_, _) => s.noted == {}
    case Waiting(desired, _) => s.noted == {} && s.mailbox <= desired
    case Restore => true
    case Loop => true
  }

  lemma {:induction false} InvSuccessor(s: State, t: State)
    requires Inv(s) && Successor(s, t)
    ensures Inv(t)
  {
  }

  lemma {:induction false} InvAlways(run: seq<State>, i: nat)
    requires IsRun(run) && i < |run|
    ensures Inv(run[i])
  {
    if i > 0 {
      InvAlways(run, i - 1);
      InvSuccessor(run[i - 1], run[i]);
    }
  }

  // ----- Results -----

  /** The step from s to t was guest dispatch taking bit n, no newer recording of which is waiting. */
  predicate Taken(s: State, t: State, n: Signal) {
    Can(s, Take(n)) && t == Next(s, Take(n)) && n !in s.noted
  }

  lemma {:induction false} OnlyTakeRemoves(s: State, t: State, n: Signal)
    requires Inv(s) && Successor(s, t) && n in Due(s) && !Taken(s, t, n)
    ensures n in Due(t)
  {
  }

  /** A recorded signal stays in the array or the mailbox until guest dispatch takes its bit, whatever
      else happens: recording, publishing, waits and mask changes lose none. */
  lemma {:induction false} NoSignalIsLost(run: seq<State>, i: nat, j: nat, n: Signal)
    requires IsRun(run) && i <= j < |run| && n in Due(run[i])
    requires forall k :: i < k <= j ==> !Taken(run[k - 1], run[k], n)
    ensures n in Due(run[j])
    decreases j
  {
    InvAlways(run, j);
    if i < j {
      NoSignalIsLost(run, i, j - 1, n);
      InvAlways(run, j - 1);
      OnlyTakeRemoves(run[j - 1], run[j], n);
    }
  }

  /** When the guest resumes, every signal recorded by then is in its mailbox. */
  lemma {:induction false} GuestSeesAll(run: seq<State>, i: nat)
    requires IsRun(run) && 0 < i < |run| && run[i].place.Guest? && run[i - 1].place.Publish?
    ensures run[i].mailbox == Due(run[i])
  {
    InvAlways(run, i - 1);
    InvAlways(run, i);
    assert Successor(run[i - 1], run[i]);
    var step :| Can(run[i - 1], step) && run[i] == Next(run[i - 1], step);
    assert run[i].noted == {};
  }

  /** A wait never sleeps on a recorded signal outside its mask, whenever that signal arrived; one that
      is generated while it sleeps ends it; and it comes back at once if one was recorded before. */
  lemma {:induction false} NoWakeUpIsLost(run: seq<State>, i: nat, n: Signal)
    requires IsRun(run) && i < |run|
    requires (run[i].place.Waiting? || run[i].place.Check?) && n !in run[i].place.desired
    ensures run[i].place.Waiting? ==> n !in Due(run[i])
    ensures run[i].place.Waiting? && n in run[i].kernel ==>
              Can(run[i], Deliver(n)) && !Next(run[i], Deliver(n)).place.Waiting? && n in Due(Next(run[i], Deliver(n)))
    ensures run[i].place.Check? ==>
              (Next(run[i], Execute).place.Waiting? <==> Due(run[i]) <= run[i].place.desired)
  {
    InvAlways(run, i);
  }
}
