/** The listener and client threads of the TCP server framework, as atomic steps over
    shared state (main/Core/AbstractThreadedServer.cpp). */
module ThreadedServer {
  import opened Options

  type Address = nat

  /** Where a client's thread is. `Locked`, `Erased` and `Inserted` are inside the critical
      section of requestDestruction. */
  datatype Phase = Created | Running | Leaving | Locked | Erased | Inserted | Moved | Exited

  datatype Holder = ByListener | ByClient(p: Address)

  /** Where the listener's thread is, with its local copies of the client sets. */
  datatype Pc =
    | Loop
    | Polled
    | Recording(p: Address)
    | Inserting(p: Address)
    | Starting(p: Address)
    | ReapEnter(last: bool)
    | ReapCopy(last: bool)
    | ReapNext(pending: set<Address>, last: bool)
    | ReapJoin(p: Address, pending: set<Address>, last: bool)
    | ReapDelete(p: Address, pending: set<Address>, last: bool)
    | KillEnter
    | KillCopy
    | KillNext(rest: set<Address>)
    | KillJoin(p: Address, rest: set<Address>)
    | KillDelete(p: Address, rest: set<Address>)
    | KillErase(p: Address, rest: set<Address>)
    | KillErasing(p: Address, rest: set<Address>)
    | Returned(status: int)

  datatype State = State(
    pc: Pc,
    stop: bool,                     // the listener has been asked to exit
    lock: Option<Holder>,
    active: set<Address>,
    exiting: set<Address>,
    live: set<Address>,             // client objects created and not deleted
    threads: map<Address, Phase>,   // client threads not yet collected
    requested: set<Address>)        // clients asked to exit

  datatype Action =
    | RequestStop
    | TestExit
    | PollTimeout
    | PollError
    | Accept(p: Address)
    | TakeLock
    | Record
    | Start
    | ReapTake
    | ReapPick(p: Address)
    | Join
    | Delete
    | ReapDone
    | KillTake
    | KillPick(p: Address)
    | KillForget
    | KillDone
    | Leave(p: Address)
    | ClientLock(p: Address)
    | ClientErase(p: Address)
    | ClientInsert(p: Address)
    | ClientUnlock(p: Address)
    | ThreadExit(p: Address)

  const INIT := State(Loop, false, None, {}, {}, {}, map[], {})

  /** The listener wants the mutex next. */
  predicate WantsLock(pc: Pc) {
    pc.Recording? || pc.ReapEnter? || pc.KillEnter? || pc.KillErase?
  }

  function InCritical(pc: Pc): Pc
    requires WantsLock(pc)
  {
    match pc
    case Recording(p) => Inserting(p)
    case ReapEnter(last) => ReapCopy(last)
    case KillEnter => KillCopy
    case KillErase(p, rest) => KillErasing(p, rest)
  }

  predicate HoldsLock(pc: Pc) {
    pc.Inserting? || pc.ReapCopy? || pc.KillCopy? || pc.KillErasing?
  }

  predicate At(s: State, p: Address, phase: Phase) {
    p in s.threads && s.threads[p] == phase
  }

  /** A join returns once the thread has exited; joining a deleted object is not ruled out
      here but proved impossible. */
  predicate Enabled(s: State, a: Action) {
    match a
    case RequestStop => !s.stop
    case TestExit => s.pc.Loop?
    case PollTimeout => s.pc.Polled?
    case PollError => s.pc.Polled?
    case Accept(p) => s.pc.Polled? && p !in s.live && p !in s.threads
    case TakeLock => WantsLock(s.pc) && s.lock.None?
    case Record => s.pc.Inserting?
    case Start => s.pc.Starting?
    case ReapTake => s.pc.ReapCopy?
    case ReapPick(p) => s.pc.ReapNext? && p in s.pc.pending
    case Join => (s.pc.ReapJoin? || s.pc.KillJoin?) && (s.pc.p in s.threads ==> s.threads[s.pc.p] == Exited)
    case Delete => s.pc.ReapDelete? || s.pc.KillDelete?
    case ReapDone => s.pc.ReapNext? && s.pc.pending == {}
    case KillTake => s.pc.KillCopy?
    case KillPick(p) => s.pc.KillNext? && p in s.pc.rest
    case KillForget => s.pc.KillErasing?
    case KillDone => s.pc.KillNext? && s.pc.rest == {}
    case Leave(p) => At(s, p, Running)
    case ClientLock(p) => At(s, p, Leaving) && s.lock.None?
    case ClientErase(p) => At(s, p, Locked)
    case ClientInsert(p) => At(s, p, Erased)
    case ClientUnlock(p) => At(s, p, Inserted)
    case ThreadExit(p) => At(s, p, Moved)
  }

  function To(s: State, p: Address, phase: Phase): State {
    s.(threads := s.threads[p := phase])
  }

  /** Deleting frees the object; a thread that has exited leaves nothing behind. */
  function Freed(s: State, p: Address): State {
    s.(live := s.live - {p}, threads := if At(s, p, Exited) then s.threads - {p} else s.threads)
  }

  function Do(s: State, a: Action): State
    requires Enabled(s, a)
  {
    match a
    case RequestStop => s.(stop := true)
    case TestExit => s.(pc := if s.stop then KillEnter else Polled)
    case PollTimeout => s.(pc := ReapEnter(false))
    case PollError => s.(pc := Returned(-1))
    case Accept(p) => To(s, p, Created).(pc := Recording(p), live := s.live + {p}, requested := s.requested - {p})
    case TakeLock => s.(pc := InCritical(s.pc), lock := Some(ByListener))
    case Record => s.(pc := Starting(s.pc.p), active := s.active + {s.pc.p}, lock := None)
    case Start => To(s, s.pc.p, Running).(pc := ReapEnter(false))
    case ReapTake => s.(pc := ReapNext(s.exiting, s.pc.last), exiting := {}, lock := None)
    case ReapPick(p) => s.(pc := ReapJoin(p, s.pc.pending - {p}, s.pc.last))
    case Join =>
      s.(pc := match s.pc case ReapJoin(p, pending, last) => ReapDelete(p, pending, last)
                          case KillJoin(p, rest) => KillDelete(p, rest))
    case Delete =>
      Freed(s, s.pc.p).(pc := match s.pc case ReapDelete(p, pending, last) => ReapNext(pending, last)
                                         case KillDelete(p, rest) => KillErase(p, rest))
    case ReapDone => s.(pc := if s.pc.last then Returned(0) else Loop)
    case KillTake => s.(pc := KillNext(s.active), active := {}, lock := None)
    case KillPick(p) => s.(pc := KillJoin(p, s.pc.rest - {p}), requested := s.requested + {p})
    case KillForget => s.(pc := KillNext(s.pc.rest), exiting := s.exiting - {s.pc.p}, lock := None)
    case KillDone => s.(pc := ReapEnter(true))
    case Leave(p) => To(s, p, Leaving)
    case ClientLock(p) => To(s, p, Locked).(lock := Some(ByClient(p)))
    case ClientErase(p) => To(s, p, Erased).(active := s.active - {p})
    case ClientInsert(p) => To(s, p, Inserted).(exiting := s.exiting + {p})
    case ClientUnlock(p) => To(s, p, Moved).(lock := None)
    case ThreadExit(p) => To(s, p, Exited)
  }

  ghost predicate IsRun(s: State, actions: seq<Action>)
    decreases |actions|
  {
    actions == [] || (Enabled(s, actions[0]) && IsRun(Do(s, actions[0]), actions[1..]))
  }

  function After(s: State, actions: seq<Action>): State
    requires IsRun(s, actions)
    decreases |actions|
  {
    if actions == [] then s else After(Do(s, actions[0]), actions[1..])
  }

  // The invariant

  /** Clients in the copy that killallClients works through, before their deletion. */
  function Killing(pc: Pc): set<Address> {
    match pc
    case KillNext(rest) => rest
    case KillJoin(p, rest) => rest + {p}
    case KillDelete(p, rest) => rest + {p}
    case KillErase(_, rest) => rest
    case KillErasing(_, rest) => rest
    case _ => {}
  }

  /** Clients in the copy that reapClients works through, before their deletion. */
  function Pending(pc: Pc): set<Address> {
    match pc
    case ReapNext(pending, _) => pending
    case ReapJoin(p, pending, _) => pending + {p}
    case ReapDelete(p, pending, _) => pending + {p}
    case _ => {}
  }

  /** After deleting a client, killallClients still has its address to erase. */
  predicate Stale(pc: Pc, p: Address) {
    (pc.KillErase? || pc.KillErasing?) && pc.p == p
  }

  predicate Setting(pc: Pc, p: Address) {
    (pc.Recording? || pc.Inserting? || pc.Starting?) && pc.p == p
  }

  /** One client's phase against the sets that hold its address. */
  predicate Placed(s: State, p: Address) {
    if p !in s.threads then
      p !in s.active && p !in Killing(s.pc) && p !in Pending(s.pc) && (p in s.exiting ==> Stale(s.pc, p))
      && !Setting(s.pc, p)
    else match s.threads[p]
      case Created =>
        Setting(s.pc, p) && p !in s.exiting && (p in s.active <==> s.pc.Starting?)
      case Erased => p !in s.active && p !in s.exiting && p !in Pending(s.pc) && !Setting(s.pc, p)
      case Running =>  OnLoose(s, p)
      case Leaving => OnLoose(s, p)
      case Locked => OnLoose(s, p)
      case Inserted => Collected(s, p)
      case Moved => Collected(s, p)
      case Exited => Collected(s, p)
  }

  /** Not yet moved: recorded as active, or in the copy being killed. */
  predicate OnLoose(s: State, p: Address) {
    && p !in s.exiting && p !in Pending(s.pc) && !Setting(s.pc, p)
    && (p in s.active <==> p !in Killing(s.pc))
  }

  /** Moved: in the exiting set or in the copy being reaped, not both. */
  predicate Collected(s: State, p: Address) {
    && p !in s.active && !Setting(s.pc, p)
    && (p in s.exiting <==> p !in Pending(s.pc))
  }

  predicate InSection(phase: Phase) {
    phase.Locked? || phase.Erased? || phase.Inserted?
  }

  ghost predicate LockRight(s: State) {
    && (s.lock == Some(ByListener) <==> HoldsLock(s.pc))
    && (forall p <- s.threads :: InSection(s.threads[p]) <==> s.lock == Some(ByClient(p)))
    && (s.lock.Some? && s.lock.value.ByClient? ==> s.lock.value.p in s.threads)
  }

  predicate LastReap(pc: Pc) {
    (pc.ReapNext? || pc.ReapJoin? || pc.ReapDelete?) && pc.last
  }

  /** What is settled once killallClients has taken the active set. */
  ghost predicate WindingDown(s: State) {
    && (Killing(s.pc) != {} || s.pc.KillNext? || s.pc.KillErase? || s.pc.KillErasing?
        || (s.pc.ReapEnter? && s.pc.last) || (s.pc.ReapCopy? && s.pc.last) || LastReap(s.pc)
        || s.pc == Returned(0)
        ==> s.active == {})
    && (LastReap(s.pc) ==> s.exiting == {} && s.threads.Keys <= Pending(s.pc))
    && (s.pc == Returned(0) ==> s.exiting == {} && s.threads == map[])
  }

  /** The picked client is not among those still to do. */
  predicate PickedOnce(pc: Pc) {
    && (pc.ReapJoin? || pc.ReapDelete? ==> pc.p !in pc.pending)
    && (pc.KillJoin? || pc.KillDelete? || pc.KillErase? || pc.KillErasing? ==> pc.p !in pc.rest)
  }

  ghost predicate Inv(s: State) {
    && (forall p :: Placed(s, p))
    && Settled(s)
  }

  ghost predicate Settled(s: State) {
    && s.live == s.threads.Keys
    && LockRight(s)
    && WindingDown(s)
    && PickedOnce(s.pc)
    && (s.pc.ReapDelete? || s.pc.KillDelete? ==> At(s, s.pc.p, Exited))
    && (s.pc.Recording? || s.pc.Inserting? || s.pc.Starting? ==> At(s, s.pc.p, Created))
    && (s.pc.KillErase? || s.pc.KillErasing? ==> s.pc.p !in s.threads)
    && (s.pc.KillJoin? ==> s.pc.p in s.requested)
    && (s.pc.Returned? ==> s.pc.status == 0 || s.pc.status == -1)
  }

  lemma InitInv()
    ensures Inv(INIT)
  {
  }

  predicate IsClientStep(a: Action) {
    a.Leave? || a.ClientLock? || a.ClientErase? || a.ClientInsert? || a.ClientUnlock? || a.ThreadExit?
  }

  predicate IsReapStep(a: Action) {
    a.ReapTake? || a.ReapPick? || a.ReapDone? || a.Join? || a.Delete?
  }

  lemma ReapStepKeepsPlaces(s: State, a: Action, q: Address)
    requires Inv(s) && Enabled(s, a) && IsReapStep(a)
    ensures Placed(Do(s, a), q)
  {
    hide WindingDown, LockRight;
    assert Placed(s, q);
  }

  lemma OtherStepKeepsPlaces(s: State, a: Action, q: Address)
    requires Inv(s) && Enabled(s, a) && !IsClientStep(a) && !IsReapStep(a)
    ensures Placed(Do(s, a), q)
  {
    assert Placed(s, q);
  }

  lemma ReapStepKeepsSettled(s: State, a: Action)
    requires Inv(s) && Enabled(s, a) && IsReapStep(a)
    ensures Settled(Do(s, a))
  {
    var s' := Do(s, a);
    if a.Join? {
      assert Placed(s, s.pc.p);
    }
    if a.ReapTake? {
      forall q | q in s.threads && s.pc.last ensures q in Pending(s'.pc) {
        assert Placed(s, q);
      }
    }
    if a.ReapDone? && s.pc.last {
      assert s'.threads.Keys == {};
    }
  }

  lemma OtherStepKeepsSettled(s: State, a: Action)
    requires Inv(s) && Enabled(s, a) && !IsReapStep(a) && !IsClientStep(a)
    ensures Settled(Do(s, a))
  {
    hide WindingDown;
    OtherStepWindsDown(s, a);
  }

  lemma OtherStepWindsDown(s: State, a: Action)
    requires Inv(s) && Enabled(s, a) && !IsReapStep(a) && !IsClientStep(a)
    ensures WindingDown(Do(s, a))
  {
    hide LockRight, Placed;
  }

  lemma ListenerStepKeepsInv(s: State, a: Action)
    requires Inv(s) && Enabled(s, a) && !IsClientStep(a)
    ensures Inv(Do(s, a))
  {
    hide Placed, Settled, Do, Enabled;
    forall q ensures Placed(Do(s, a), q) {
      if IsReapStep(a) {
        ReapStepKeepsPlaces(s, a, q);
      } else {
        OtherStepKeepsPlaces(s, a, q);
      }
    }
    if IsReapStep(a) {
      ReapStepKeepsSettled(s, a);
    } else {
      OtherStepKeepsSettled(s, a);
    }
  }

  lemma ClientStepKeepsPlaces(s: State, a: Action, q: Address)
    requires Inv(s) && Enabled(s, a) && IsClientStep(a)
    ensures Placed(Do(s, a), q)
  {
    hide WindingDown, PickedOnce;
    assert Placed(s, q);
  }

  lemma ClientStepKeepsSettled(s: State, a: Action)
    requires Inv(s) && Enabled(s, a) && IsClientStep(a)
    ensures Settled(Do(s, a))
  {
    hide LockRight;
    assert Placed(s, a.p);
    ClientStepKeepsLock(s, a);
  }

  lemma ClientStepKeepsLock(s: State, a: Action)
    requires Inv(s) && Enabled(s, a) && IsClientStep(a)
    ensures LockRight(Do(s, a))
  {
    hide WindingDown, Placed;
  }

  lemma ClientStepKeepsInv(s: State, a: Action)
    requires Inv(s) && Enabled(s, a) && IsClientStep(a)
    ensures Inv(Do(s, a))
  {
    hide Placed, Settled, Do, Enabled;
    forall q ensures Placed(Do(s, a), q) {
      ClientStepKeepsPlaces(s, a, q);
    }
    ClientStepKeepsSettled(s, a);
  }

  lemma {:induction false} RunKeepsInv(s: State, actions: seq<Action>)
    requires Inv(s) && IsRun(s, actions)
    ensures Inv(After(s, actions))
    decreases |actions|
  {
    hide Inv, Do, Enabled;
    if actions != [] {
      if IsClientStep(actions[0]) {
        ClientStepKeepsInv(s, actions[0]);
      } else {
        ListenerStepKeepsInv(s, actions[0]);
      }
      RunKeepsInv(Do(s, actions[0]), actions[1..]);
    }
  }

  // Safety over every interleaving

  /** The client objects that a step dereferences. A client's own steps run in its object. */
  function Uses(s: State, a: Action): set<Address>
    requires Enabled(s, a)
  {
    match a
    case Start => {s.pc.p}
    case KillPick(p) => {p}
    case Join => {s.pc.p}
    case Delete => {s.pc.p}
    case Leave(p) => {p}
    case ClientLock(p) => {p}
    case ClientErase(p) => {p}
    case ClientInsert(p) => {p}
    case ClientUnlock(p) => {p}
    case ThreadExit(p) => {p}
    case _ => {}
  }

  /** No interleaving dereferences a deleted client, and a client is deleted only after its
      thread has exited, while the listener holds no lock. */
  lemma NoUseAfterDelete(actions: seq<Action>, a: Action)
    requires IsRun(INIT, actions) && Enabled(After(INIT, actions), a)
    ensures var s := After(INIT, actions);
            && Uses(s, a) <= s.live
            && (a == Delete ==> At(s, s.pc.p, Exited))
            && (a == Join || a == Delete ==> s.lock != Some(ByListener))
  {
    InitInv();
    RunKeepsInv(INIT, actions);
    var s := After(INIT, actions);
    forall p | p in Uses(s, a) ensures p in s.live {
      assert Placed(s, p);
    }
  }

  function Creations(actions: seq<Action>, p: Address): nat {
    if actions == [] then 0 else (if actions[0] == Accept(p) then 1 else 0) + Creations(actions[1..], p)
  }

  function Deletions(s: State, actions: seq<Action>, p: Address): nat
    requires IsRun(s, actions)
    decreases |actions|
  {
    if actions == [] then 0
    else (if actions[0] == Delete && s.pc.p == p then 1 else 0) + Deletions(Do(s, actions[0]), actions[1..], p)
  }

  lemma DeletesALiveClient(s: State, a: Action, p: Address)
    requires Inv(s) && Enabled(s, a)
    ensures p in Do(s, a).live <==> (p in s.live && !(a == Delete && s.pc.p == p)) || a == Accept(p)
    ensures a == Accept(p) ==> p !in s.live
    ensures a == Delete && s.pc.p == p ==> p in s.live
  {
  }

  lemma {:induction false} DeletionBalance(s: State, actions: seq<Action>, p: Address)
    requires Inv(s) && IsRun(s, actions)
    ensures Creations(actions, p) + (if p in s.live then 1 else 0)
         == Deletions(s, actions, p) + if p in After(s, actions).live then 1 else 0
    decreases |actions|
  {
    hide Inv, Do, Enabled;
    if actions != [] {
      DeletesALiveClient(s, actions[0], p);
      RunKeepsInv(s, actions[..1]);
      assert After(s, actions[..1]) == Do(s, actions[0]);
      DeletionBalance(Do(s, actions[0]), actions[1..], p);
    }
  }

  /** Addresses may be reused, yet each object created at one is deleted at most once, and
      never before it exists. */
  lemma DeletedAtMostOnce(actions: seq<Action>, p: Address)
    requires IsRun(INIT, actions)
    ensures Deletions(INIT, actions, p) <= Creations(actions, p) <= Deletions(INIT, actions, p) + 1
  {
    InitInv();
    DeletionBalance(INIT, actions, p);
  }

  /** When the entry point returns success, both sets are empty and every client it ever
      created has been deleted. */
  lemma ReturnsClean(actions: seq<Action>)
    requires IsRun(INIT, actions) && After(INIT, actions).pc == Returned(0)
    ensures var s := After(INIT, actions);
            s.active == {} && s.exiting == {} && s.live == {} && s.threads == map[]
    ensures forall p :: Deletions(INIT, actions, p) == Creations(actions, p)
  {
    InitInv();
    RunKeepsInv(INIT, actions);
    forall p ensures Deletions(INIT, actions, p) == Creations(actions, p) {
      DeletionBalance(INIT, actions, p);
    }
  }

  // A failed poll returns without killing the clients

  lemma NothingDeletedAfterError(s: State, a: Action)
    requires s.pc == Returned(-1) && Enabled(s, a)
    ensures Do(s, a).pc == Returned(-1) && Do(s, a).live == s.live
  {
  }

  /** After a failed poll the listener deletes no client any more: cleaned up after the
      return means no client existed then. */
  lemma {:induction false} AfterPollError(s: State, actions: seq<Action>)
    requires s.pc == Returned(-1) && IsRun(s, actions)
    ensures After(s, actions).live == s.live
    decreases |actions|
  {
    hide Do, Enabled;
    if actions != [] {
      NothingDeletedAfterError(s, actions[0]);
      AfterPollError(Do(s, actions[0]), actions[1..]);
    }
  }

  const STARTED := State(ReapEnter(false), false, None, {7}, {}, {7}, map[7 := Running], {})

  lemma OneClientStarts()
    ensures var actions := [TestExit, Accept(7), TakeLock, Record, Start];
            IsRun(INIT, actions) && After(INIT, actions) == STARTED
  {
    hide IsRun, After;
    var s1 := Do(INIT, TestExit);
    var s2 := Do(s1, Accept(7));
    var s3 := Do(s2, TakeLock);
    var s4 := Do(s3, Record);
    assert Do(s4, Start) == STARTED;
    var r5: seq<Action> := [];
    var r4 := [Start] + r5;
    var r3 := [Record] + r4;
    var r2 := [TakeLock] + r3;
    var r1 := [Accept(7)] + r2;
    RunNil(STARTED);
    RunCons(s4, Start, r5);
    RunCons(s3, Record, r4);
    RunCons(s2, TakeLock, r3);
    RunCons(s1, Accept(7), r2);
    RunCons(INIT, TestExit, r1);
    assert [TestExit] + r1 == [TestExit, Accept(7), TakeLock, Record, Start];
  }

  lemma ThenPollFails()
    ensures var actions := [TakeLock, ReapTake, ReapDone, TestExit, PollError];
            && IsRun(STARTED, actions)
            && After(STARTED, actions) == STARTED.(pc := Returned(-1))
  {
    hide IsRun, After;
    var s1 := Do(STARTED, TakeLock);
    var s2 := Do(s1, ReapTake);
    var s3 := Do(s2, ReapDone);
    var s4 := Do(s3, TestExit);
    assert Do(s4, PollError) == STARTED.(pc := Returned(-1));
    var r5: seq<Action> := [];
    var r4 := [PollError] + r5;
    var r3 := [TestExit] + r4;
    var r2 := [ReapDone] + r3;
    var r1 := [ReapTake] + r2;
    RunNil(STARTED.(pc := Returned(-1)));
    RunCons(s4, PollError, r5);
    RunCons(s3, TestExit, r4);
    RunCons(s2, ReapDone, r3);
    RunCons(s1, ReapTake, r2);
    RunCons(STARTED, TakeLock, r1);
    assert [TakeLock] + r1 == [TakeLock, ReapTake, ReapDone, TestExit, PollError];
  }

  /** One client accepted, then a failed poll: it stays recorded and undeleted. */
  lemma PollErrorLeaksClient() returns (actions: seq<Action>)
    ensures IsRun(INIT, actions) && After(INIT, actions).pc == Returned(-1)
    ensures After(INIT, actions).active == {7} == After(INIT, actions).live
  {
    hide IsRun, After;
    var first: seq<Action> := [TestExit, Accept(7), TakeLock, Record, Start];
    var second: seq<Action> := [TakeLock, ReapTake, ReapDone, TestExit, PollError];
    OneClientStarts();
    ThenPollFails();
    RunAppend(INIT, first, second);
    actions := first + second;
  }

  lemma {:induction false} RunAppend(s: State, a: seq<Action>, b: seq<Action>)
    requires IsRun(s, a) && IsRun(After(s, a), b)
    ensures IsRun(s, a + b) && After(s, a + b) == After(After(s, a), b)
    decreases |a|
  {
    hide Do, Enabled;
    if a == [] {
      assert a + b == b;
    } else {
      assert (a + b)[1..] == a[1..] + b;
      RunAppend(Do(s, a[0]), a[1..], b);
    }
  }

  lemma RunNil(s: State)
    ensures IsRun(s, []) && After(s, []) == s
  {
  }

  lemma RunCons(s: State, a: Action, rest: seq<Action>)
    requires Enabled(s, a) && IsRun(Do(s, a), rest)
    ensures IsRun(s, [a] + rest) && After(s, [a] + rest) == After(Do(s, a), rest)
  {
    hide Do, Enabled;
    assert ([a] + rest)[1..] == rest;
  }
}
