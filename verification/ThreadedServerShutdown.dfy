/** Liveness of the threaded server: joins cannot deadlock, and a listener that has been
    asked to exit finishes whatever the interleaving. */
module ThreadedServerShutdown {
  import opened Options
  import opened ThreadedServer

  /** Steps that need nothing from outside: no new connection, poll error or exit request,
      and a client leaves its loop only because it was asked to. */
  predicate Unprompted(s: State, a: Action) {
    match a
    case RequestStop => false
    case PollError => false
    case Accept(_) => false
    case Leave(p) => p in s.requested
    case _ => true
  }

  ghost predicate CanMove(s: State) {
    exists a :: Enabled(s, a) && Unprompted(s, a)
  }

  /** The next step of a client that has started to leave, or that has been asked to. */
  function NextStep(s: State, p: Address): Action
    requires p in s.threads
  {
    match s.threads[p]
    case Running => Leave(p)
    case Leaving => ClientLock(p)
    case Locked => ClientErase(p)
    case Erased => ClientInsert(p)
    case Inserted => ClientUnlock(p)
    case _ => ThreadExit(p)
  }

  /** While the listener waits in a join it does not hold the mutex, and the client it waits
      for, or the client inside the critical section, can take its next step. */
  lemma JoinCannotDeadlock(s: State) returns (p: Address)
    requires Inv(s) && (s.pc.ReapJoin? || s.pc.KillJoin?) && !Enabled(s, Join)
    ensures s.lock != Some(ByListener)
    ensures p in s.threads && (p == s.pc.p || s.lock == Some(ByClient(p)))
    ensures Enabled(s, NextStep(s, p)) && Unprompted(s, NextStep(s, p)) && IsClientStep(NextStep(s, p))
  {
    assert Placed(s, s.pc.p);
    p := if s.lock.Some? then s.lock.value.p else s.pc.p;
  }

  /** Until the listener returns, something can always happen without outside help. */
  lemma NeverStuck(s: State)
    requires Inv(s) && !s.pc.Returned?
    ensures CanMove(s)
  {
    var a;
    if (s.pc.ReapJoin? || s.pc.KillJoin?) && !Enabled(s, Join) {
      var p := JoinCannotDeadlock(s);
      a := NextStep(s, p);
    } else if WantsLock(s.pc) && s.lock.Some? {
      a := NextStep(s, s.lock.value.p);
    } else {
      a := match s.pc
        case Loop => TestExit
        case Polled => PollTimeout
        case Inserting(_) => Record
        case Starting(_) => Start
        case ReapCopy(_) => ReapTake
        case ReapNext(pending, _) => if pending == {} then ReapDone else var p :| p in pending; ReapPick(p)
        case ReapJoin(_, _, _) => Join
        case ReapDelete(_, _, _) => Delete
        case KillCopy => KillTake
        case KillNext(rest) => if rest == {} then KillDone else var p :| p in rest; KillPick(p)
        case KillJoin(_, _) => Join
        case KillDelete(_, _) => Delete
        case KillErasing(_, _) => KillForget
        case _ => TakeLock;
    }
    assert Enabled(s, a) && Unprompted(s, a);
  }

  // A measure that every step lowers once the exit request is in

  function Stage(pc: Pc): nat {
    match pc
    case Polled => 14
    case Recording(_) => 13
    case Inserting(_) => 12
    case Starting(_) => 11
    case ReapEnter(last) => if last then 3 else 10
    case ReapCopy(last) => if last then 2 else 9
    case ReapNext(_, last) => if last then 1 else 8
    case ReapJoin(_, _, last) => if last then 1 else 8
    case ReapDelete(_, _, last) => if last then 1 else 8
    case Loop => 7
    case KillEnter => 6
    case KillCopy => 5
    case KillNext(_) => 4
    case KillJoin(_, _) => 4
    case KillDelete(_, _) => 4
    case KillErase(_, _) => 4
    case KillErasing(_, _) => 4
    case Returned(_) => 0
  }

  /** Listener steps left in the current loop; the copy of the active set starts it. */
  function LoopSteps(s: State): nat {
    match s.pc
    case ReapNext(pending, _) => 3 * |pending|
    case ReapJoin(_, pending, _) => 3 * |pending| + 2
    case ReapDelete(_, pending, _) => 3 * |pending| + 1
    case KillNext(rest) => 5 * |rest|
    case KillJoin(_, rest) => 5 * |rest| + 4
    case KillDelete(_, rest) => 5 * |rest| + 3
    case KillErase(_, rest) => 5 * |rest| + 2
    case KillErasing(_, rest) => 5 * |rest| + 1
    case _ => 0
  }

  function Rank(phase: Phase): nat {
    match phase
    case Created => 7
    case Running => 6
    case Leaving => 5
    case Locked => 4
    case Erased => 3
    case Inserted => 2
    case Moved => 1
    case Exited => 0
  }

  /** One token for every step that a client thread still has to take. */
  function Tokens(threads: map<Address, Phase>): set<(Address, int)> {
    set p, r | p in threads && 0 <= r < Rank(threads[p]) :: (p, r)
  }

  ghost predicate Lower(s': State, s: State) {
    || Stage(s'.pc) < Stage(s.pc)
    || (Stage(s'.pc) == Stage(s.pc) && LoopSteps(s') < LoopSteps(s))
    || (Stage(s'.pc) == Stage(s.pc) && LoopSteps(s') == LoopSteps(s) && Tokens(s'.threads) < Tokens(s.threads))
  }

  lemma TokensFall(threads: map<Address, Phase>, p: Address, phase: Phase)
    requires p in threads && Rank(phase) < Rank(threads[p])
    ensures Tokens(threads[p := phase]) < Tokens(threads)
  {
    var after := Tokens(threads[p := phase]);
    forall t | t in after ensures t in Tokens(threads) {
    }
    assert (p, Rank(phase)) in Tokens(threads) && (p, Rank(phase)) !in after;
  }

  lemma ClientStepLowers(s: State, a: Action)
    requires IsClientStep(a) && Enabled(s, a)
    ensures Lower(Do(s, a), s) && Do(s, a).stop == s.stop
  {
    hide Tokens, Stage, LoopSteps;
    var phase := match a
      case Leave(_) => Leaving
      case ClientLock(_) => Locked
      case ClientErase(_) => Erased
      case ClientInsert(_) => Inserted
      case ClientUnlock(_) => Moved
      case _ => Exited;
    TokensFall(s.threads, a.p, phase);
    assert Do(s, a).pc == s.pc && Do(s, a).threads == s.threads[a.p := phase];
    assert LoopSteps(Do(s, a)) == LoopSteps(s) by { SamePlace(s, Do(s, a)); }
  }

  lemma SamePlace(s: State, s': State)
    requires s.pc == s'.pc
    ensures LoopSteps(s) == LoopSteps(s')
  {
  }

  /** The steps that go round one of the loops over a set of clients. */
  predicate IsLoopStep(a: Action) {
    a.ReapPick? || a.KillPick? || a.Join? || a.Delete? || a.TakeLock? || a.KillForget?
  }

  lemma OneLess(p: Address, pending: set<Address>)
    requires p in pending
    ensures |pending - {p}| == |pending| - 1
  {
  }

  lemma PickLowers(s: State, a: Action)
    requires s.stop && Enabled(s, a) && (a.ReapPick? || a.KillPick?)
    ensures Lower(Do(s, a), s) && Do(s, a).stop
  {
    hide Tokens;
    OneLess(a.p, if a.ReapPick? then s.pc.pending else s.pc.rest);
  }

  lemma JoinLowers(s: State, a: Action)
    requires s.stop && Enabled(s, a) && (a.Join? || a.Delete?)
    ensures Lower(Do(s, a), s) && Do(s, a).stop
  {
    hide Tokens, At;
  }

  lemma LoopStepLowers(s: State, a: Action)
    requires s.stop && Enabled(s, a) && IsLoopStep(a)
    ensures Lower(Do(s, a), s) && Do(s, a).stop
  {
    if a.ReapPick? || a.KillPick? {
      PickLowers(s, a);
    } else if a.Join? || a.Delete? {
      JoinLowers(s, a);
    } else {
      hide Tokens, At;
    }
  }

  lemma OtherStepLowers(s: State, a: Action)
    requires s.stop && Enabled(s, a) && !IsClientStep(a) && !IsLoopStep(a)
    ensures Lower(Do(s, a), s) && Do(s, a).stop
  {
    hide Tokens, LoopSteps;
  }

  lemma EveryStepLowers(s: State, a: Action)
    requires s.stop && Enabled(s, a)
    ensures Lower(Do(s, a), s) && Do(s, a).stop
  {
    hide Lower, Do, Enabled;
    if IsClientStep(a) {
      ClientStepLowers(s, a);
    } else if IsLoopStep(a) {
      LoopStepLowers(s, a);
    } else {
      OtherStepLowers(s, a);
    }
  }

  // Infinite schedules

  predicate Moves(f: nat -> State, g: nat -> Action, n: nat) {
    Enabled(f(n), g(n)) && f(n + 1) == Do(f(n), g(n))
  }

  /** No schedule goes on for ever once the listener has been asked to exit. */
  lemma {:induction false} ScheduleEnds(f: nat -> State, g: nat -> Action, n: nat) returns (m: nat)
    requires f(n).stop
    ensures n <= m && !Moves(f, g, m) && forall k :: n <= k < m ==> Moves(f, g, k)
    decreases Stage(f(n).pc), LoopSteps(f(n)), Tokens(f(n).threads)
  {
    hide Stage, LoopSteps, Tokens, Do, Enabled;
    m := n;
    if Moves(f, g, n) {
      EveryStepLowers(f(n), g(n));
      m := ScheduleEnds(f, g, n + 1);
    }
  }

  ghost predicate PollFails(g: nat -> Action, m: nat) {
    exists k :: 0 <= k < m && g(k) == PollError
  }

  lemma {:induction false} ScheduleKeepsInv(f: nat -> State, g: nat -> Action, m: nat)
    requires Inv(f(0)) && f(0).pc != Returned(-1)
    requires forall k :: 0 <= k < m ==> Moves(f, g, k)
    ensures Inv(f(m)) && (f(m).pc == Returned(-1) <==> PollFails(g, m))
  {
    hide Inv, Do, Enabled;
    if m > 0 {
      var k := m - 1;
      ScheduleKeepsInv(f, g, k);
      assert Moves(f, g, k);
      assert IsRun(f(k), [g(k)]) && After(f(k), [g(k)]) == f(m) by {
        RunCons(f(k), g(k), []);
        assert [g(k)] + [] == [g(k)];
      }
      RunKeepsInv(f(k), [g(k)]);
      ReturnsErrorOnFailure(f(k), g(k));
      if PollFails(g, k) || g(k) == PollError {
        assert PollFails(g, m);
      }
    }
  }

  lemma ReturnsErrorOnFailure(s: State, a: Action)
    requires Enabled(s, a)
    ensures Do(s, a).pc == Returned(-1) <==> a == PollError || s.pc == Returned(-1)
  {
  }

  /** Shutdown completes: from any reachable state in which the listener has been asked to
      exit, every schedule that keeps going while something can move makes the entry point
      return. It returns -1 if and only if a poll fails on the way; else it returns 0 with
      every client deleted. */
  lemma ShutdownCompletes(actions: seq<Action>, f: nat -> State, g: nat -> Action) returns (m: nat)
    requires IsRun(INIT, actions) && f(0) == After(INIT, actions)
    requires f(0).stop && f(0).pc != Returned(-1)
    requires forall n: nat :: CanMove(f(n)) ==> Moves(f, g, n)
    ensures f(m).pc == Returned(if PollFails(g, m) then -1 else 0)
    ensures !PollFails(g, m) ==> f(m).live == {} && f(m).active == {} && f(m).exiting == {}
  {
    InitInv();
    RunKeepsInv(INIT, actions);
    m := ScheduleEnds(f, g, 0);
    ScheduleKeepsInv(f, g, m);
    if !f(m).pc.Returned? {
      NeverStuck(f(m));
    }
  }
}
