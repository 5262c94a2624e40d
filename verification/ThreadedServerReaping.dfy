/** The pass of the listener loop that collects clients whose threads have moved to the exiting
    set (main/Core/AbstractThreadedServer.cpp:208-236, 331-347). */
module ThreadedServerReaping {
  import opened ThreadedServer

  /** The listener is killing its clients, in the reap that follows, or has returned. */
  predicate Closing(pc: Pc) {
    || pc.KillEnter? || pc.KillCopy? || pc.KillNext? || pc.KillJoin? || pc.KillDelete? || pc.KillErase?
    || pc.KillErasing? || pc.Returned?
    || ((pc.ReapEnter? || pc.ReapCopy? || pc.ReapNext? || pc.ReapJoin? || pc.ReapDelete?) && pc.last)
  }

  /** The copy that a pass works through has been taken. */
  predicate Reaping(pc: Pc) {
    (pc.ReapNext? || pc.ReapJoin? || pc.ReapDelete?) && !pc.last
  }

  /** A client that this pass of the loop must collect: still in the exiting set before the
      copy, in the copy from then on. */
  predicate Awaited(s: State, p: Address) {
    !Closing(s.pc) && if Reaping(s.pc) then p in Pending(s.pc) else p in s.exiting
  }

  /** This pass has nothing to do with an address any more. */
  predicate Passed(s: State, p: Address) {
    s.pc.Loop? || (Reaping(s.pc) && p !in Pending(s.pc))
  }

  /** How often the listener starts a pass. */
  function Passes(actions: seq<Action>): nat {
    if actions == [] then 0 else (if actions[0] == TestExit then 1 else 0) + Passes(actions[1..])
  }

  predicate DeletesAt(s: State, a: Action, p: Address) {
    a == Delete && (s.pc.ReapDelete? || s.pc.KillDelete?) && s.pc.p == p
  }

  /** An exit was requested or a poll failed. */
  predicate Ending(s: State) {
    Closing(s.pc) && (s.stop || s.pc == Returned(-1))
  }

  lemma AwaitedStep(s: State, a: Action, p: Address)
    requires Inv(s) && Enabled(s, a) && Awaited(s, p)
    ensures var s' := Do(s, a);
            if DeletesAt(s, a, p) then Passed(s', p) && a != TestExit && !s.pc.Loop?
            else Ending(s') || (Awaited(s', p) && (s'.pc.Loop? <==> s.pc.Loop? && a != TestExit))
    ensures a == TestExit ==> s.pc.Loop?
  {
    hide WindingDown, LockRight, Placed;
  }

  lemma PassedStep(s: State, a: Action, p: Address)
    requires Inv(s) && Enabled(s, a) && Passed(s, p) && a != TestExit
    ensures Passed(Do(s, a), p) && !DeletesAt(s, a, p)
  {
    hide Placed, WindingDown, LockRight;
  }

  lemma EndingStep(s: State, a: Action)
    requires Enabled(s, a) && Ending(s)
    ensures Ending(Do(s, a))
  {
  }

  lemma {:induction false} EndingStays(s: State, actions: seq<Action>)
    requires Ending(s) && IsRun(s, actions)
    ensures Ending(After(s, actions))
    decreases |actions|
  {
    hide Ending, Do, Enabled;
    if actions != [] {
      EndingStep(s, actions[0]);
      EndingStays(Do(s, actions[0]), actions[1..]);
    }
  }

  lemma StepKeepsInv(s: State, a: Action)
    requires Inv(s) && Enabled(s, a)
    ensures Inv(Do(s, a))
  {
    if IsClientStep(a) {
      ClientStepKeepsInv(s, a);
    } else {
      ListenerStepKeepsInv(s, a);
    }
  }

  lemma DeletionsFirst(s: State, actions: seq<Action>, p: Address)
    requires actions != [] && IsRun(s, actions)
    ensures Deletions(s, actions, p)
         == (if DeletesAt(s, actions[0], p) then 1 else 0) + Deletions(Do(s, actions[0]), actions[1..], p)
  {
    hide Do;
  }

  lemma {:induction false} NotDeletedAgain(s: State, actions: seq<Action>, p: Address)
    requires Inv(s) && IsRun(s, actions) && Passed(s, p) && Passes(actions) == 0
    ensures Deletions(s, actions, p) == 0
    decreases |actions|
  {
    hide Inv, Do, Enabled, Passed, DeletesAt;
    if actions != [] {
      StepKeepsInv(s, actions[0]);
      DeletionsFirst(s, actions, p);
      PassedStep(s, actions[0], p);
      NotDeletedAgain(Do(s, actions[0]), actions[1..], p);
    }
  }

  lemma {:induction false} DeletedByTheEnd(s: State, actions: seq<Action>, p: Address)
    requires Inv(s) && IsRun(s, actions) && Awaited(s, p)
    requires After(s, actions).pc.Loop? && Passes(actions) == if s.pc.Loop? then 1 else 0
    ensures Deletions(s, actions, p) == 1
    decreases |actions|
  {
    hide Inv, Do, Enabled, Passed, Awaited, DeletesAt;
    if actions != [] {
      var a, s' := actions[0], Do(s, actions[0]);
      StepKeepsInv(s, a);
      DeletionsFirst(s, actions, p);
      AwaitedStep(s, a, p);
      if DeletesAt(s, a, p) {
        NotDeletedAgain(s', actions[1..], p);
      } else if Ending(s') {
        EndingStays(s', actions[1..]);
      } else {
        DeletedByTheEnd(s', actions[1..], p);
      }
    }
  }

  /** One pass of the loop collects every client that was in the exiting set when it began:
      between that and the listener's next return to the top of the loop each is deleted
      exactly once, whatever else goes on. */
  lemma PassReaps(s: State, actions: seq<Action>, p: Address)
    requires Inv(s) && s.pc.Loop? && p in s.exiting
    requires IsRun(s, actions) && Passes(actions) == 1 && After(s, actions).pc.Loop?
    ensures Deletions(s, actions, p) == 1
  {
    DeletedByTheEnd(s, actions, p);
  }

  lemma {:induction false} StillAwaited(s: State, actions: seq<Action>, p: Address)
    requires Inv(s) && IsRun(s, actions) && Awaited(s, p) && Deletions(s, actions, p) == 0
    ensures Ending(After(s, actions))
         || (Awaited(After(s, actions), p) && Passes(actions) <= if s.pc.Loop? then 1 else 0)
    decreases |actions|
  {
    hide Inv, Do, Enabled, Passed, Awaited, Ending, DeletesAt;
    if actions != [] {
      var a, s' := actions[0], Do(s, actions[0]);
      StepKeepsInv(s, a);
      DeletionsFirst(s, actions, p);
      AwaitedStep(s, a, p);
      if Ending(s') {
        EndingStays(s', actions[1..]);
      } else {
        StillAwaited(s', actions[1..], p);
      }
    }
  }

  /** So a client in the exiting set outlives the pass only if an exit was requested or a poll
      failed. */
  lemma OutlivesOnlyClosing(s: State, actions: seq<Action>, p: Address)
    requires Inv(s) && s.pc.Loop? && p in s.exiting && IsRun(s, actions) && Deletions(s, actions, p) == 0
    ensures Passes(actions) <= 1 || After(s, actions).stop || After(s, actions).pc == Returned(-1)
  {
    StillAwaited(s, actions, p);
  }
}
