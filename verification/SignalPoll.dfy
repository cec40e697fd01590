/** linux_bash_poll_signals as the loop it is, run against scripted guest code: what handlers do is a
    script that may change masks and actions, call the bridge again, or longjmp to the top. */
module SignalPoll {
  import opened SignalDispatch

  /** The rest of a guest function. A bridge call lists, for signals 1, 2, ..., what their handlers
      will do if the scan that follows dispatches them; unlisted ones just return. */
  datatype Code =
    | Return
    | Longjmp
    | Arrival(number: Signal, rest: Code)
    | Procmask(mask: set<Signal>, rest: Code)
    | Sigaction(number: Signal, action: Action, rest: Code)
    | Bridge(handlers: seq<Code>, rest: Code)

  /** t is reached from s by steps of the dispatch machine whose longjmps keep no handler that
      holds a signal. */
  ghost predicate Leads(s: State, t: State) {
    exists path: seq<State> :: IsPath(path, s, t)
  }

  ghost predicate IsPath(path: seq<State>, s: State, t: State) {
    && |path| > 0 && path[0] == s && path[|path| - 1] == t
    && forall i {:trigger CleanSuccessor(path[i - 1], path[i])} :: 0 < i < |path| ==>
       CleanSuccessor(path[i - 1], path[i])
  }

  lemma {:induction false} LeadsNowhere(s: State)
    ensures Leads(s, s)
  {
    assert IsPath([s], s, s);
  }

  lemma {:induction false} LeadsStep(s: State, t: State, step: Step)
    requires Leads(s, t) && Can(t, step) && !Careless(t, step)
    ensures Leads(s, Next(t, step))
  {
    var path :| IsPath(path, s, t);
    var u := Next(t, step);
    var more := path + [u];
    assert CleanSuccessor(t, u);
    forall i | 0 < i < |more|
      ensures CleanSuccessor(more[i - 1], more[i])
    {
      if i < |path| {
        assert CleanSuccessor(path[i - 1], path[i]);
        assert more[i - 1] == path[i - 1] && more[i] == path[i];
      } else {
        assert more[i - 1] == t && more[i] == u;
      }
    }
    assert IsPath(more, s, u);
  }

  /** Runs that lead on from a clean run stay clean. */
  lemma {:induction false} LeadsExtendsRun(run: seq<State>, t: State) returns (more: seq<State>)
    requires IsCleanRun(run) && Leads(run[|run| - 1], t)
    ensures IsCleanRun(more) && more[|more| - 1] == t && run <= more
  {
    var s := run[|run| - 1];
    var path :| IsPath(path, s, t);
    more := run + path[1..];
    forall i | 0 < i < |more|
      ensures CleanSuccessor(more[i - 1], more[i])
    {
      if i < |run| {
        assert CleanSuccessor(run[i - 1], run[i]);
      } else {
        var k := i - |run| + 1;
        assert CleanSuccessor(path[k - 1], path[k]);
        assert more[i] == path[k] && more[i - 1] == path[k - 1];
      }
    }
  }

  class Dispatcher {
    var pending: set<Signal>
    var mask: set<Signal>
    var blocked: set<Signal>
    var actions: Signal -> Action
    /** The guest's call stack, as far as dispatch is concerned. */
    ghost var stack: seq<Frame>

    ghost function View(): State
      reads this
    {
      State(pending, mask, blocked, actions, stack)
    }

    constructor (actions: Signal -> Action)
      ensures Initial(View()) && this.actions == actions && pending == {} && mask == {}
    {
      this.actions := actions;
      pending, mask, blocked, stack := {}, {}, {}, [];
    }

    /** The guest hook before every longjmp, here for one that discards every handler. */
    method JumpOut(ghost s: State)
      requires Leads(s, View()) && InGuest(View())
      modifies this`blocked, this`stack
      ensures Leads(s, View()) && stack == [] && blocked == {}
    {
      LeadsStep(s, View(), Jump(0));
      blocked, stack := {}, [];
    }

    /** Guest code up to its return or its longjmp. */
    method Run(code: Code, ghost s: State) returns (jumped: bool)
      requires Leads(s, View()) && InGuest(View()) && Guarded(View())
      modifies this
      ensures Leads(s, View()) && Guarded(View())
      ensures if jumped then stack == [] && blocked == {} else stack == old(stack) && blocked == old(blocked)
      decreases code, 1
    {
      if code.Return? {
        return false;
      }
      if code.Longjmp? {
        JumpOut(s);
        return true;
      }
      if code.Bridge? {
        jumped := Poll(code, s);
        if jumped {
          return;
        }
      } else if code.Arrival? {
        LeadsStep(s, View(), Arrive(code.number));
        pending := pending + {code.number};
      } else if code.Procmask? {
        LeadsStep(s, View(), SetMask(code.mask));
        mask := code.mask;
      } else {
        LeadsStep(s, View(), SetAction(code.number, code.action));
        var before, number, action := actions, code.number, code.action;
        actions := (k: Signal) => if k == number then action else before(k);
      }
      jumped := Run(code.rest, s);
    }

    /** A whole guest program is a run of the dispatch machine, and a clean one. */
    method Program(code: Code) returns (jumped: bool, ghost run: seq<State>)
      requires Initial(View())
      modifies this
      ensures IsCleanRun(run) && run[0] == old(View()) && run[|run| - 1] == View()
      ensures stack == [] && blocked == {}
    {
      ghost var s := View();
      LeadsNowhere(s);
      jumped := Run(code, s);
      assert IsCleanRun([s]);
      run := LeadsExtendsRun([s], View());
    }

    /** The dispatch loop. Whatever its handlers do, it ends with the blocked set it found, unless a
        handler jumped out, and every state on the way is one of the dispatch machine's. */
    method Poll(code: Code, ghost s: State) returns (jumped: bool)
      requires code.Bridge?
      requires Leads(s, View()) && InGuest(View()) && Guarded(View())
      modifies this
      ensures Leads(s, View()) && Guarded(View())
      ensures if jumped then stack == [] && blocked == {} else stack == old(stack) && blocked == old(blocked)
      decreases code, 0
    {
      ghost var below := stack;
      GuardedStep(View(), SignalDispatch.Step.Poll);
      LeadsStep(s, View(), SignalDispatch.Step.Poll);
      stack := stack + [Scan(1)];
      var number := 1;
      while number <= 64
        invariant 1 <= number <= 65 && stack == below + [Scan(number)] && blocked == old(blocked)
        invariant Leads(s, View()) && Guarded(View())
      {
        jumped := Dispatch(code, number, s, below);
        if jumped {
          return;
        }
        number := number + 1;
      }
      GuardedStep(View(), EndScan);
      LeadsStep(s, View(), EndScan);
      stack := below;
      jumped := false;
    }

    /** One turn of the loop. */
    method Dispatch(code: Code, number: Signal, ghost s: State, ghost below: seq<Frame>) returns (jumped: bool)
      requires code.Bridge? && stack == below + [Scan(number)]
      requires Leads(s, View()) && Guarded(View())
      modifies this
      ensures Leads(s, View()) && Guarded(View())
      ensures if jumped then stack == [] && blocked == {}
              else stack == below + [Scan(number + 1)] && blocked == old(blocked)
      decreases code, 0, 0
    {
      LookGuarded(View());
      LeadsStep(s, View(), Look);
      var previous := blocked;
      var runs := LookAt(number, below);
      jumped := false;
      if runs {
        if number <= |code.handlers| {
          jumped := Run(code.handlers[number - 1], s);
        }
        if !jumped {
          FinishHandler(previous, s, below + [Scan(number + 1)]);
        }
      }
    }

    /** Up to the call of a handler, if one is due. */
    method LookAt(number: Signal, ghost below: seq<Frame>) returns (runs: bool)
      requires stack == below + [Scan(number)]
      modifies this
      ensures View() == Looked(old(View()))
      ensures if runs then
                |stack| == |below| + 2 && stack[..|below| + 1] == below + [Scan(number + 1)] &&
                stack[|below| + 1].Running? && stack[|below| + 1].saved == old(blocked)
              else
                stack == below + [Scan(number + 1)] && blocked == old(blocked)
    {
      ghost var on := below + [Scan(number + 1)];
      assert stack[|stack| - 1 := Scan(number + 1)] == on;
      stack := on;
      if !(number in pending && number !in mask && number !in blocked) {
        return false;
      }
      pending := pending - {number};
      var action := actions(number);
      if !action.Handler? {
        return false;
      }
      if action.once {
        actions := Reset(actions, number);
      }
      stack := on + [Running(number, blocked, action.mask, action.nodefer)];
      blocked := blocked + Guard(number, action.mask, action.nodefer);
      runs := true;
    }

    /** The handler has returned. */
    method FinishHandler(previous: set<Signal>, ghost s: State, ghost on: seq<Frame>)
      requires Leads(s, View()) && Guarded(View())
      requires |stack| == |on| + 1 && stack[..|on|] == on && stack[|on|].Running? && stack[|on|].saved == previous
      modifies this`blocked, this`stack
      ensures Leads(s, View()) && Guarded(View()) && stack == on && blocked == previous
    {
      GuardedStep(View(), EndHandler);
      LeadsStep(s, View(), EndHandler);
      blocked, stack := previous, on;
    }
  }
}
