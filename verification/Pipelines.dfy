/** What the operations on event-processing pipelines do, and the attachments that follow
    (main/Core/CPipelineManager.cpp). */
module Pipelines {
  /** An event processor, by identity. */
  type Processor = nat

  datatype Element = Element(name: string, processor: Processor)

  /** What event processors are told. */
  datatype Call = OnAttach(processor: Processor) | OnDetach(processor: Processor)

  datatype Outcome = Done | DuplicateProcessor | NoSuchProcessor | DuplicatePipeline | NoSuchPipeline | NotInPipeline

  datatype Operation =
    | Register(name: string, p: Processor)
    | Unregister(name: string)
    | Create(pipe: string)
    | Append(pipe: string, name: string)
    | Insert(pipe: string, name: string, here: nat)
    | Remove(pipe: string, name: string)
    | RemoveAt(pipe: string, here: nat)
    | SetCurrent(pipe: string)
    | Clone(from: string, pipe: string)

  datatype Manager = Manager(
    processors: map<string, Processor>,
    pipelines: map<string, seq<Element>>,
    current: string,
    calls: seq<Call>)

  predicate Sound(m: Manager) {
    m.current in m.pipelines
  }

  const DEFAULT := "default"

  const INIT := Manager(map[], map[DEFAULT := []], DEFAULT, [])

  function AttachAll(pipe: seq<Element>): (calls: seq<Call>)
    ensures |calls| == |pipe|
  {
    seq(|pipe|, i requires 0 <= i < |pipe| => OnAttach(pipe[i].processor))
  }

  function DetachAll(pipe: seq<Element>): (calls: seq<Call>)
    ensures |calls| == |pipe|
  {
    seq(|pipe|, i requires 0 <= i < |pipe| => OnDetach(pipe[i].processor))
  }

  /** The first element with a processor, or the end. */
  function IndexOf(pipe: seq<Element>, p: Processor): (i: nat)
    ensures i <= |pipe| && (i < |pipe| ==> pipe[i].processor == p)
    ensures forall j :: 0 <= j < i ==> pipe[j].processor != p
  {
    if pipe == [] || pipe[0].processor == p then 0 else 1 + IndexOf(pipe[1..], p)
  }

  /** Positions must be ones of the pipeline they are used with. */
  predicate GoodPosition(m: Manager, op: Operation) {
    match op
    case Insert(pipe, _, here) => pipe in m.pipelines ==> here <= |m.pipelines[pipe]|
    case RemoveAt(pipe, here) => pipe in m.pipelines ==> here < |m.pipelines[pipe]|
    case _ => true
  }

  function Inserted(m: Manager, pipe: string, here: nat, e: Element): Manager
    requires pipe in m.pipelines && here <= |m.pipelines[pipe]|
  {
    m.(pipelines := m.pipelines[pipe := m.pipelines[pipe][..here] + [e] + m.pipelines[pipe][here..]],
       calls := m.calls + if pipe == m.current then [OnAttach(e.processor)] else [])
  }

  /** The processor is told to detach whatever the pipeline. */
  function Removed(m: Manager, pipe: string, here: nat): Manager
    requires pipe in m.pipelines && here < |m.pipelines[pipe]|
  {
    m.(pipelines := m.pipelines[pipe := m.pipelines[pipe][..here] + m.pipelines[pipe][here + 1..]],
       calls := m.calls + [OnDetach(m.pipelines[pipe][here].processor)])
  }

  /** Whether an operation is refused, and why. */
  function OutcomeOf(m: Manager, op: Operation): Outcome {
    match op
    case Register(name, _) => if name in m.processors then DuplicateProcessor else Done
    case Unregister(name) => if name in m.processors then Done else NoSuchProcessor
    case Create(pipe) => if pipe in m.pipelines then DuplicatePipeline else Done
    case Append(pipe, name) => Lookup(m, pipe, name)
    case Insert(pipe, name, _) => Lookup(m, pipe, name)
    case Remove(pipe, name) =>
      if Lookup(m, pipe, name) != Done then Lookup(m, pipe, name)
      else if IndexOf(m.pipelines[pipe], m.processors[name]) < |m.pipelines[pipe]| then Done
      else NotInPipeline
    case RemoveAt(pipe, _) => if pipe in m.pipelines then Done else NoSuchPipeline
    case SetCurrent(pipe) => if pipe in m.pipelines then Done else NoSuchPipeline
    case Clone(from, pipe) =>
      if from !in m.pipelines then NoSuchPipeline
      else if pipe in m.pipelines then DuplicatePipeline
      else Done
  }

  function Lookup(m: Manager, pipe: string, name: string): (o: Outcome)
    ensures o == Done ==> pipe in m.pipelines && name in m.processors
  {
    if pipe !in m.pipelines then NoSuchPipeline else if name !in m.processors then NoSuchProcessor else Done
  }

  /** A refused operation changes nothing. */
  function Apply(m: Manager, op: Operation): Manager
    requires Sound(m) && GoodPosition(m, op)
  {
    if OutcomeOf(m, op) != Done then m else
    match op
    case Register(name, p) => m.(processors := m.processors[name := p])
    case Unregister(name) => m.(processors := m.processors - {name})
    case Create(pipe) => m.(pipelines := m.pipelines[pipe := []])
    case Append(pipe, name) => Inserted(m, pipe, |m.pipelines[pipe]|, Element(name, m.processors[name]))
    case Insert(pipe, name, here) => Inserted(m, pipe, here, Element(name, m.processors[name]))
    case Remove(pipe, name) => Removed(m, pipe, IndexOf(m.pipelines[pipe], m.processors[name]))
    case RemoveAt(pipe, here) => Removed(m, pipe, here)
    case SetCurrent(pipe) =>
      m.(current := pipe, calls := m.calls + DetachAll(m.pipelines[m.current]) + AttachAll(m.pipelines[pipe]))
    case Clone(from, pipe) => m.(pipelines := m.pipelines[pipe := m.pipelines[from]])
  }

  // Runs

  predicate IsRun(m: Manager, ops: seq<Operation>)
    requires Sound(m)
    decreases |ops|
  {
    ops == [] || (GoodPosition(m, ops[0]) && (ApplySound(m, ops[0]); IsRun(Apply(m, ops[0]), ops[1..])))
  }

  lemma ApplySound(m: Manager, op: Operation)
    requires Sound(m) && GoodPosition(m, op)
    ensures Sound(Apply(m, op))
  {
  }

  function Run(m: Manager, ops: seq<Operation>): (m': Manager)
    requires Sound(m) && IsRun(m, ops)
    ensures Sound(m')
    decreases |ops|
  {
    if ops == [] then m else Run(Apply(m, ops[0]), ops[1..])
  }

  /** How often a processor is in a pipeline. */
  function Occurrences(pipe: seq<Element>, p: Processor): nat {
    if pipe == [] then 0 else (if pipe[0].processor == p then 1 else 0) + Occurrences(pipe[1..], p)
  }

  /** Attaches less detaches. */
  function Balance(calls: seq<Call>, p: Processor): int {
    if calls == [] then 0
    else (if calls[0] == OnAttach(p) then 1 else if calls[0] == OnDetach(p) then -1 else 0) + Balance(calls[1..], p)
  }

  lemma {:induction false} OccurrencesAppend(a: seq<Element>, b: seq<Element>, p: Processor)
    ensures Occurrences(a + b, p) == Occurrences(a, p) + Occurrences(b, p)
    decreases |a|
  {
    if a == [] {
      assert a + b == b;
    } else {
      assert (a + b)[1..] == a[1..] + b;
      OccurrencesAppend(a[1..], b, p);
    }
  }

  lemma {:induction false} BalanceAppend(a: seq<Call>, b: seq<Call>, p: Processor)
    ensures Balance(a + b, p) == Balance(a, p) + Balance(b, p)
    decreases |a|
  {
    if a == [] {
      assert a + b == b;
    } else {
      assert (a + b)[1..] == a[1..] + b;
      BalanceAppend(a[1..], b, p);
    }
  }

  lemma {:induction false} BalanceOfAttachAll(pipe: seq<Element>, p: Processor)
    ensures Balance(AttachAll(pipe), p) == Occurrences(pipe, p)
  {
    if pipe != [] {
      assert AttachAll(pipe)[1..] == AttachAll(pipe[1..]);
      BalanceOfAttachAll(pipe[1..], p);
    }
  }

  lemma {:induction false} BalanceOfDetachAll(pipe: seq<Element>, p: Processor)
    ensures Balance(DetachAll(pipe), p) + Occurrences(pipe, p) == 0
  {
    if pipe != [] {
      assert DetachAll(pipe)[1..] == DetachAll(pipe[1..]);
      BalanceOfDetachAll(pipe[1..], p);
    }
  }

  /** The processor that a successful operation removes from a pipeline other than the current
      one; the detach it is told of answers no attach. */
  predicate IsStray(m: Manager, op: Operation, p: Processor)
    requires GoodPosition(m, op)
  {
    && (op.Remove? || op.RemoveAt?) && op.pipe != m.current && OutcomeOf(m, op) == Done
    && var elements := m.pipelines[op.pipe];
       elements[if op.Remove? then IndexOf(elements, m.processors[op.name]) else op.here].processor == p
  }

  function Strays(m: Manager, ops: seq<Operation>, p: Processor): nat
    requires Sound(m) && IsRun(m, ops)
    decreases |ops|
  {
    if ops == [] then 0
    else (if IsStray(m, ops[0], p) then 1 else 0) + Strays(Apply(m, ops[0]), ops[1..], p)
  }

  /** What a processor is owed: its places in the current pipeline less its attachments. */
  function Owed(m: Manager, p: Processor): int
    requires Sound(m)
  {
    Occurrences(m.pipelines[m.current], p) - Balance(m.calls, p)
  }

  lemma BalanceOfOne(call: Call, p: Processor)
    ensures Balance([call], p) == if call == OnAttach(p) then 1 else if call == OnDetach(p) then -1 else 0
  {
    assert [call][1..] == [];
  }

  lemma OccurrencesOfOne(pipe: seq<Element>, e: Element, here: nat, p: Processor)
    requires here <= |pipe|
    ensures Occurrences(pipe[..here] + [e] + pipe[here..], p)
         == Occurrences(pipe, p) + if e.processor == p then 1 else 0
  {
    assert pipe == pipe[..here] + pipe[here..];
    OccurrencesAppend(pipe[..here], pipe[here..], p);
    OccurrencesAppend(pipe[..here] + [e], pipe[here..], p);
    OccurrencesAppend(pipe[..here], [e], p);
    assert [e][1..] == [];
  }

  lemma InsertedOwes(m: Manager, pipe: string, here: nat, e: Element, p: Processor)
    requires Sound(m) && pipe in m.pipelines && here <= |m.pipelines[pipe]|
    ensures Owed(Inserted(m, pipe, here, e), p) == Owed(m, p)
  {
    hide Occurrences, Balance;
    if pipe == m.current {
      OccurrencesOfOne(m.pipelines[pipe], e, here, p);
      BalanceAppend(m.calls, [OnAttach(e.processor)], p);
      BalanceOfOne(OnAttach(e.processor), p);
    } else {
      assert m.calls + [] == m.calls;
    }
  }

  lemma RemovedOwes(m: Manager, pipe: string, here: nat, p: Processor)
    requires Sound(m) && pipe in m.pipelines && here < |m.pipelines[pipe]|
    ensures Owed(Removed(m, pipe, here), p) ==
              Owed(m, p) + if pipe != m.current && m.pipelines[pipe][here].processor == p then 1 else 0
  {
    hide Occurrences, Balance;
    var elements := m.pipelines[pipe];
    var e, rest := elements[here], elements[..here] + elements[here + 1..];
    BalanceAppend(m.calls, [OnDetach(e.processor)], p);
    BalanceOfOne(OnDetach(e.processor), p);
    OccurrencesOfOne(rest, e, here, p);
    assert rest[..here] + [e] + rest[here..] == elements;
  }

  /** One operation leaves every debt as it was, except that a stray detach adds one. */
  lemma OperationOwes(m: Manager, op: Operation, p: Processor)
    requires Sound(m) && GoodPosition(m, op)
    ensures Sound(Apply(m, op)) && Owed(Apply(m, op), p) == Owed(m, p) + if IsStray(m, op, p) then 1 else 0
  {
    hide Occurrences, Balance, Inserted, Removed;
    ApplySound(m, op);
    if OutcomeOf(m, op) == Done {
      match op
      case Append(pipe, name) => InsertedOwes(m, pipe, |m.pipelines[pipe]|, Element(name, m.processors[name]), p);
      case Insert(pipe, name, here) => InsertedOwes(m, pipe, here, Element(name, m.processors[name]), p);
      case Remove(pipe, name) => RemovedOwes(m, pipe, IndexOf(m.pipelines[pipe], m.processors[name]), p);
      case RemoveAt(pipe, here) => RemovedOwes(m, pipe, here, p);
      case SetCurrent(pipe) =>
        var was, now := m.pipelines[m.current], m.pipelines[pipe];
        BalanceAppend(m.calls, DetachAll(was), p);
        BalanceAppend(m.calls + DetachAll(was), AttachAll(now), p);
        BalanceOfDetachAll(was, p);
        BalanceOfAttachAll(now, p);
      case _ =>
    }
  }

  lemma {:induction false} RunOwes(m: Manager, ops: seq<Operation>, p: Processor)
    requires Sound(m) && IsRun(m, ops)
    ensures Owed(Run(m, ops), p) == Owed(m, p) + Strays(m, ops, p)
    decreases |ops|
  {
    hide Owed, Apply, IsStray;
    if ops != [] {
      OperationOwes(m, ops[0], p);
      RunOwes(Apply(m, ops[0]), ops[1..], p);
    }
  }

  /** Every processor is attached once for each place it has in the current pipeline. */
  ghost predicate AttachedByPlace(m: Manager)
    requires Sound(m)
  {
    forall p :: Balance(m.calls, p) == Occurrences(m.pipelines[m.current], p)
  }

  /** No operation of a run removes anything from a pipeline that is not current. */
  predicate RemovesFromCurrentOnly(m: Manager, ops: seq<Operation>)
    requires Sound(m) && IsRun(m, ops)
    decreases |ops|
  {
    ops == [] ||
    (&& ((ops[0].Remove? || ops[0].RemoveAt?) && OutcomeOf(m, ops[0]) == Done ==> ops[0].pipe == m.current)
     && RemovesFromCurrentOnly(Apply(m, ops[0]), ops[1..]))
  }

  lemma {:induction false} NoStrays(m: Manager, ops: seq<Operation>) returns (p: Processor)
    requires Sound(m) && IsRun(m, ops)
    ensures RemovesFromCurrentOnly(m, ops) ==> forall q :: Strays(m, ops, q) == 0
    ensures !RemovesFromCurrentOnly(m, ops) ==> Strays(m, ops, p) > 0
    decreases |ops|
  {
    p := 0;
    if ops != [] {
      var op := ops[0];
      p := NoStrays(Apply(m, op), ops[1..]);
      if (op.Remove? || op.RemoveAt?) && OutcomeOf(m, op) == Done && op.pipe != m.current {
        var here := if op.Remove? then IndexOf(m.pipelines[op.pipe], m.processors[op.name]) else op.here;
        p := m.pipelines[op.pipe][here].processor;
        assert IsStray(m, op, p);
      }
    }
  }

  /** The attachments match the current pipeline after a run if and only if the run removed
      nothing from any other pipeline. */
  lemma AttachedIffRemovalsCurrent(ops: seq<Operation>)
    requires IsRun(INIT, ops)
    ensures AttachedByPlace(Run(INIT, ops)) <==> RemovesFromCurrentOnly(INIT, ops)
  {
    hide Apply, Strays, IsRun, RemovesFromCurrentOnly, Run;
    var m := Run(INIT, ops);
    forall p ensures Owed(m, p) == Strays(INIT, ops, p) {
      RunOwes(INIT, ops, p);
      assert Owed(INIT, p) == 0;
    }
    var p := NoStrays(INIT, ops);
    if AttachedByPlace(m) {
      assert Owed(m, p) == 0;
    }
    if RemovesFromCurrentOnly(INIT, ops) {
      forall p ensures Balance(m.calls, p) == Occurrences(m.pipelines[m.current], p) {
        assert Owed(m, p) == 0;
      }
    }
  }

  /** A processor appended to a spare pipeline and removed from it again: it has been told to
      detach without ever having been attached. */
  lemma RemovalElsewhereDetaches() returns (ops: seq<Operation>)
    ensures ops == [Register("p", 1), Create("spare"), Append("spare", "p"), Remove("spare", "p")]
    ensures IsRun(INIT, ops) && Run(INIT, ops).calls == [OnDetach(1)]
    ensures !AttachedByPlace(Run(INIT, ops))
  {
    ops := [Register("p", 1), Create("spare"), Append("spare", "p"), Remove("spare", "p")];
    var m1 := Apply(INIT, ops[0]);
    var m2 := Apply(m1, ops[1]);
    var m3 := Apply(m2, ops[2]);
    var m4 := Apply(m3, ops[3]);
    assert m3.pipelines["spare"] == [Element("p", 1)] && m3.calls == [];
    assert m4.calls == [OnDetach(1)];
    RunOne(m4, []);
    RunOne(m3, ops[3..]);
    RunOne(m2, ops[2..]);
    RunOne(m1, ops[1..]);
    RunOne(INIT, ops);
    BalanceOfOne(OnDetach(1), 1);
  }

  lemma RunOne(m: Manager, ops: seq<Operation>)
    requires Sound(m)
    ensures ops == [] ==> IsRun(m, ops) && Run(m, ops) == m
    ensures ops != [] && GoodPosition(m, ops[0]) ==>
              Sound(Apply(m, ops[0]))
              && (IsRun(Apply(m, ops[0]), ops[1..]) ==>
                    IsRun(m, ops) && Run(m, ops) == Run(Apply(m, ops[0]), ops[1..]))
  {
  }

  // What operations do to the pipelines

  /** One list is another with an element at some place. */
  predicate HasAt(longer: seq<Element>, shorter: seq<Element>, here: nat, e: Element) {
    && |longer| == |shorter| + 1 && here <= |shorter| && longer[here] == e
    && (forall k :: 0 <= k < here ==> longer[k] == shorter[k])
    && forall k :: here < k < |longer| ==> longer[k] == shorter[k - 1]
  }

  /** What a successful operation makes of the pipeline that it is about: one element more or
      less, in its place; an appended one comes last, and of several with a processor the first
      is removed. */
  ghost predicate Edited(m: Manager, op: Operation, was: seq<Element>, now: seq<Element>) {
    match op
    case Append(_, name) => name in m.processors && HasAt(now, was, |was|, Element(name, m.processors[name]))
    case Insert(_, name, here) => name in m.processors && HasAt(now, was, here, Element(name, m.processors[name]))
    case Remove(_, name) =>
      && name in m.processors
      && exists k :: 0 <= k < |was| && HasAt(was, now, k, was[k]) && was[k].processor == m.processors[name]
                     && forall j :: 0 <= j < k ==> was[j].processor != m.processors[name]
    case RemoveAt(_, here) => here < |was| && HasAt(was, now, here, was[here])
    case _ => now == was
  }

  /** The pipeline that an operation makes or changes. */
  predicate Touches(op: Operation, name: string) {
    match op
    case Create(pipe) => name == pipe
    case Clone(_, pipe) => name == pipe
    case Append(pipe, _) => name == pipe
    case Insert(pipe, _, _) => name == pipe
    case Remove(pipe, _) => name == pipe
    case RemoveAt(pipe, _) => name == pipe
    case _ => false
  }

  /** An operation edits the pipeline that it names and leaves every other as it is; a created
      one is empty, a cloned one equals its model. */
  lemma PipelinesAfter(m: Manager, op: Operation, name: string)
    requires Sound(m) && GoodPosition(m, op) && OutcomeOf(m, op) == Done
    ensures var now := Apply(m, op).pipelines;
            && (name in now <==> name in m.pipelines || Touches(op, name))
            && (name in m.pipelines && !Touches(op, name) ==> now[name] == m.pipelines[name])
            && (name in m.pipelines && Touches(op, name) ==> Edited(m, op, m.pipelines[name], now[name]))
            && (op.Create? ==> op.pipe !in m.pipelines && now[op.pipe] == [])
            && (op.Clone? ==> op.pipe !in m.pipelines && op.from in m.pipelines && now[op.pipe] == m.pipelines[op.from])
  {
    if op.Remove? && name == op.pipe {
      var was := m.pipelines[name];
      var k := IndexOf(was, m.processors[op.name]);
      assert HasAt(was, Apply(m, op).pipelines[name], k, was[k]);
    }
  }

  /** What an operation needs: a free name for what is new, and known names for the rest. */
  predicate Allowed(m: Manager, op: Operation) {
    match op
    case Register(name, _) => name !in m.processors
    case Unregister(name) => name in m.processors
    case Create(pipe) => pipe !in m.pipelines
    case Append(pipe, name) => pipe in m.pipelines && name in m.processors
    case Insert(pipe, name, _) => pipe in m.pipelines && name in m.processors
    case Remove(pipe, name) =>
      && pipe in m.pipelines && name in m.processors
      && exists k :: 0 <= k < |m.pipelines[pipe]| && m.pipelines[pipe][k].processor == m.processors[name]
    case RemoveAt(pipe, _) => pipe in m.pipelines
    case SetCurrent(pipe) => pipe in m.pipelines
    case Clone(from, pipe) => from in m.pipelines && pipe !in m.pipelines
  }

  /** An operation is refused exactly when it lacks one of these, and then changes nothing. */
  lemma RefusedUnlessAllowed(m: Manager, op: Operation)
    requires Sound(m) && GoodPosition(m, op)
    ensures OutcomeOf(m, op) == Done <==> Allowed(m, op)
    ensures !Allowed(m, op) ==> Apply(m, op) == m
  {
    if op.Remove? && op.pipe in m.pipelines && op.name in m.processors {
      var was, p := m.pipelines[op.pipe], m.processors[op.name];
      if IndexOf(was, p) < |was| {
        assert was[IndexOf(was, p)].processor == p;
      }
    }
  }

  /** Names of processors: registered and forgotten one at a time. */
  lemma ProcessorsAfter(m: Manager, op: Operation, name: string)
    requires Sound(m) && GoodPosition(m, op) && OutcomeOf(m, op) == Done
    ensures var now := Apply(m, op).processors;
            && (name in now <==> (name in m.processors && op != Unregister(name)) || (op.Register? && op.name == name))
            && (name in now ==> now[name] == if op.Register? && op.name == name then op.p else m.processors[name])
  {
  }

  /** Changing the current pipeline detaches the old one's elements in their order, then attaches
      the new one's in theirs. */
  lemma SwitchInOrder(m: Manager, pipe: string, k: nat)
    requires Sound(m) && pipe in m.pipelines
    requires k < |m.pipelines[m.current]| + |m.pipelines[pipe]|
    ensures var was, now := m.pipelines[m.current], m.pipelines[pipe];
            var m' := Apply(m, SetCurrent(pipe));
            && m'.current == pipe && m'.calls[..|m.calls|] == m.calls
            && |m'.calls| == |m.calls| + |was| + |now|
            && m'.calls[|m.calls| + k]
               == if k < |was| then OnDetach(was[k].processor) else OnAttach(now[k - |was|].processor)
  {
  }
}
