/** The pipeline manager with its pipelines as shared lists and the current one as a pointer
    (main/Core/CPipelineManager.cpp). */
module PipelineManagers {
  import opened Options
  import opened Pipelines

  class Pipeline {
    var elements: seq<Element>

    constructor ()
      ensures elements == []
    {
      elements := [];
    }
  }

  class PipelineManager {
    var pipelines: map<string, Pipeline>
    var processors: map<string, Processor>
    var current: Pipeline?
    var currentName: string
    var calls: seq<Call>

    /** Names own their pipelines, and the current name and pointer agree. */
    ghost predicate Valid()
      reads this
    {
      && (forall a, b :: a in pipelines && b in pipelines && pipelines[a] == pipelines[b] ==> a == b)
      && currentName in pipelines && pipelines[currentName] == current
    }

    ghost function Model(): (m: Manager)
      reads this, pipelines.Values
    {
      Manager(processors, map name | name in pipelines :: pipelines[name].elements, currentName, calls)
    }

    constructor ()
      ensures Valid() && Model() == INIT && fresh(pipelines.Values)
    {
      var first := new Pipeline();
      pipelines := map[DEFAULT := first];
      processors, calls := map[], [];
      current, currentName := null, "";
      new;
      var _ := SetCurrentPipeline(DEFAULT);
    }

    method RegisterEventProcessor(name: string, p: Processor) returns (outcome: Outcome)
      requires Valid()
      modifies `processors
      ensures Valid() && outcome == OutcomeOf(old(Model()), Register(name, p))
      ensures Model() == Apply(old(Model()), Register(name, p))
    {
      if name in processors {
        return DuplicateProcessor;
      }
      processors := processors[name := p];
      outcome := Done;
    }

    method UnregisterEventProcessor(name: string) returns (outcome: Outcome, p: Option<Processor>)
      requires Valid()
      modifies `processors
      ensures Valid() && outcome == OutcomeOf(old(Model()), Unregister(name))
      ensures Model() == Apply(old(Model()), Unregister(name))
      ensures p == if name in old(processors) then Some(old(processors)[name]) else None
    {
      if name in processors {
        p := Some(processors[name]);
        processors := processors - {name};
        return Done, p;
      }
      return NoSuchProcessor, None;
    }

    method CreatePipeline(pipe: string) returns (outcome: Outcome)
      requires Valid()
      modifies `pipelines
      ensures Valid() && outcome == OutcomeOf(old(Model()), Create(pipe))
      ensures Model() == Apply(old(Model()), Create(pipe))
      ensures outcome == Done ==>
                pipe in pipelines && fresh(pipelines[pipe]) && pipelines[pipe].elements == []
                && pipelines == old(pipelines)[pipe := pipelines[pipe]]
      ensures outcome != Done ==> pipelines == old(pipelines)
    {
      if pipe in pipelines {
        return DuplicatePipeline;
      }
      var created := new Pipeline();
      pipelines := pipelines[pipe := created];
      outcome := Done;
    }

    method AttachIfCurrent(pipe: Pipeline, p: Processor)
      modifies `calls
      ensures calls == old(calls) + if pipe == current then [OnAttach(p)] else []
    {
      if pipe == current {
        calls := calls + [OnAttach(p)];
      }
    }

    /** The pointer is overwritten by the current one, not compared with it. */
    method DetachIfCurrent(pipe: Pipeline, p: Processor)
      requires current != null
      modifies `calls
      ensures calls == old(calls) + [OnDetach(p)]
    {
      var pPipe: Pipeline? := pipe;
      pPipe := current;
      if pPipe != null {
        calls := calls + [OnDetach(p)];
      }
    }

    method AppendEventProcessor(pipe: string, name: string) returns (outcome: Outcome)
      requires Valid()
      modifies `calls, pipelines.Values
      ensures Valid() && outcome == OutcomeOf(old(Model()), Append(pipe, name))
      ensures Model() == Apply(old(Model()), Append(pipe, name))
    {
      if pipe !in pipelines {
        return NoSuchPipeline;
      }
      if name !in processors {
        return NoSuchProcessor;
      }
      var list := pipelines[pipe];
      list.elements := list.elements + [Element(name, processors[name])];
      assert list.elements == old(list.elements[..|list.elements|]) + [Element(name, processors[name])]
                              + old(list.elements[|list.elements|..]);
      AttachIfCurrent(list, processors[name]);
      outcome := Done;
    }

    method InsertEventProcessor(pipe: string, name: string, here: nat) returns (outcome: Outcome)
      requires Valid() && GoodPosition(Model(), Insert(pipe, name, here))
      modifies `calls, pipelines.Values
      ensures Valid() && outcome == OutcomeOf(old(Model()), Insert(pipe, name, here))
      ensures Model() == Apply(old(Model()), Insert(pipe, name, here))
    {
      if pipe !in pipelines {
        return NoSuchPipeline;
      }
      if name !in processors {
        return NoSuchProcessor;
      }
      var list := pipelines[pipe];
      list.elements := list.elements[..here] + [Element(name, processors[name])] + list.elements[here..];
      AttachIfCurrent(list, processors[name]);
      outcome := Done;
    }

    /** Remove the first element with the processor of that name, whatever the element's name. */
    method RemoveEventProcessor(pipe: string, name: string) returns (outcome: Outcome)
      requires Valid()
      modifies `calls, pipelines.Values
      ensures Valid() && outcome == OutcomeOf(old(Model()), Remove(pipe, name))
      ensures Model() == Apply(old(Model()), Remove(pipe, name))
    {
      if pipe !in pipelines {
        return NoSuchPipeline;
      }
      if name !in processors {
        return NoSuchProcessor;
      }
      var list, p := pipelines[pipe], processors[name];
      var i := 0;
      while i < |list.elements|
        invariant 0 <= i <= |list.elements|
        invariant forall j :: 0 <= j < i ==> list.elements[j].processor != p
      {
        if list.elements[i].processor == p {
          assert i == IndexOf(list.elements, p);
          outcome := RemoveElement(pipe, i);
          return;
        }
        i := i + 1;
      }
      outcome := NotInPipeline;
    }

    method RemoveElement(pipe: string, here: nat) returns (outcome: Outcome)
      requires Valid() && GoodPosition(Model(), RemoveAt(pipe, here))
      modifies `calls, pipelines.Values
      ensures Valid() && outcome == OutcomeOf(old(Model()), RemoveAt(pipe, here))
      ensures Model() == Apply(old(Model()), RemoveAt(pipe, here))
    {
      if pipe !in pipelines {
        return NoSuchPipeline;
      }
      var list := pipelines[pipe];
      DetachIfCurrent(list, list.elements[here].processor);
      list.elements := list.elements[..here] + list.elements[here + 1..];
      outcome := Done;
    }

    method DetachCurrent()
      modifies `calls
      ensures calls == old(calls) + if current == null then [] else DetachAll(current.elements)
    {
      if current != null {
        for i := 0 to |current.elements|
          invariant calls == old(calls) + DetachAll(current.elements)[..i]
        {
          calls := calls + [OnDetach(current.elements[i].processor)];
        }
        assert DetachAll(current.elements)[..|current.elements|] == DetachAll(current.elements);
      }
    }

    method AttachCurrent()
      requires current != null
      modifies `calls
      ensures calls == old(calls) + AttachAll(current.elements)
    {
      for i := 0 to |current.elements|
        invariant calls == old(calls) + AttachAll(current.elements)[..i]
      {
        calls := calls + [OnAttach(current.elements[i].processor)];
      }
      assert AttachAll(current.elements)[..|current.elements|] == AttachAll(current.elements);
    }

    /** Detach everything in the current pipeline, then attach everything in the named one. */
    method SetCurrentPipeline(pipe: string) returns (outcome: Outcome)
      requires current == null || Valid()
      requires forall a, b :: a in pipelines && b in pipelines && pipelines[a] == pipelines[b] ==> a == b
      modifies `current, `currentName, `calls
      ensures old(current) != null ==>
                && Valid() && outcome == OutcomeOf(old(Model()), SetCurrent(pipe))
                && Model() == Apply(old(Model()), SetCurrent(pipe))
      ensures old(current) == null && pipe in pipelines ==>
                Valid() && currentName == pipe && calls == old(calls) + AttachAll(pipelines[pipe].elements)
    {
      if pipe !in pipelines {
        return NoSuchPipeline;
      }
      DetachCurrent();
      current := pipelines[pipe];
      currentName := pipe;
      AttachCurrent();
      outcome := Done;
    }

    /** Copy a pipeline into a new one of its own. */
    method ClonePipeline(from: string, pipe: string) returns (outcome: Outcome)
      requires Valid()
      modifies `pipelines
      ensures Valid() && outcome == OutcomeOf(old(Model()), Clone(from, pipe))
      ensures Model() == Apply(old(Model()), Clone(from, pipe))
    {
      hide OutcomeOf, Apply;
      CloneCases(Model(), from, pipe);
      if from !in pipelines {
        return NoSuchPipeline;
      }
      var source := pipelines[from];
      outcome := CreatePipeline(pipe);
      if outcome != Done {
        return;
      }
      var to := pipelines[pipe];
      CopyElements(source, to);
      assert to.elements == source.elements;
      assert forall name :: name in old(pipelines) ==> pipelines[name] == old(pipelines[name]);
      assert Model().pipelines == old(Model()).pipelines[pipe := old(Model()).pipelines[from]];
    }

    method CopyElements(source: Pipeline, to: Pipeline)
      requires source != to
      modifies to
      ensures to.elements == old(to.elements) + source.elements
    {
      for i := 0 to |source.elements|
        invariant to.elements == old(to.elements) + source.elements[..i]
      {
        to.elements := to.elements + [source.elements[i]];
      }
    }
  }

  /** A pipeline that exists is cloned if and only if the copy can be created. */
  lemma CloneCases(m: Manager, from: string, pipe: string)
    requires Sound(m)
    ensures OutcomeOf(m, Create(pipe)) == Done <==> pipe !in m.pipelines
    ensures from !in m.pipelines ==>
              OutcomeOf(m, Clone(from, pipe)) == NoSuchPipeline && Apply(m, Clone(from, pipe)) == m
    ensures from in m.pipelines ==> OutcomeOf(m, Clone(from, pipe)) == OutcomeOf(m, Create(pipe))
    ensures from in m.pipelines ==>
              if OutcomeOf(m, Create(pipe)) != Done then Apply(m, Create(pipe)) == m == Apply(m, Clone(from, pipe))
              else Apply(m, Clone(from, pipe)) == m.(pipelines := m.pipelines[pipe := m.pipelines[from]])
                   && Apply(m, Create(pipe)) == m.(pipelines := m.pipelines[pipe := []])
  {
  }
}
