/**
 * Object: who handles whose events.  A source keeps its handlers and their
 * callbacks by event, a handler keeps the sources it is connected to; and
 * user code, which creates, connects, emits and destroys.
 */
module EventObjects {
  import opened EventWorld

  /** Iteration over an unordered container: any element may come next. */
  method Pick<T>(s: set<T>) returns (x: T)
    requires s != {}
    ensures x in s
  {
    x :| x in s;
  }

  lemma WithoutIs(before: Subscribers<EventObject>, after: Subscribers<EventObject>, h: EventObject)
    requires before.Keys == after.Keys && forall e | e in after :: after[e] == before[e] - {h}
    ensures after == Without(before, h)
  {
    var less := Without(before, h);
    assert forall e :: e in less <==> e in after;
    assert forall e | e in less :: less[e] == after[e];
  }

  class EventObject {
    var subscribers: Subscribers<EventObject>
    var subscriptions: set<EventObject>

    constructor ()
      ensures subscribers == map[] && subscriptions == {}
    {
      subscribers, subscriptions := map[], {};
    }

    method ConnectTo(event: int, handler: EventObject, callback: Callback)
      modifies this, handler
      ensures subscribers == Added(old(subscribers), event, handler, callback)
      ensures handler.subscriptions == old(handler.subscriptions) + {this}
      ensures handler != this ==> handler.subscribers == old(handler.subscribers) && subscriptions == old(subscriptions)
    {
      var callbacks: map<EventObject, seq<Callback>> := if event in subscribers then subscribers[event] else map[];
      var mine := if handler in callbacks then callbacks[handler] else [];
      subscribers := subscribers[event := callbacks[handler := mine + [callback]]];
      handler.subscriptions := handler.subscriptions + {this};
    }

    /** handlers.erase for every event. */
    method EraseHandler(h: EventObject)
      modifies `subscribers
      ensures subscribers == Without(old(subscribers), h)
    {
      var events := subscribers.Keys;
      while events != {}
        invariant events <= subscribers.Keys == old(subscribers).Keys
        invariant forall e | e in subscribers ::
          subscribers[e] == if e in events then old(subscribers)[e] else old(subscribers)[e] - {h}
        decreases events
      {
        var e := Pick(events);
        subscribers := subscribers[e := subscribers[e] - {h}];
        events := events - {e};
      }
      WithoutIs(old(subscribers), subscribers, h);
    }

    /** The destructor: the object is erased from every source it knows. */
    method Destruct()
      modifies subscriptions
      ensures forall s | s in old(subscriptions) :: s.subscribers == Without(old(s.subscribers), this)
      ensures forall s | s in old(subscriptions) :: s.subscriptions == old(s.subscriptions)
    {
      var todo := subscriptions;
      while todo != {}
        invariant todo <= old(subscriptions)
        invariant forall s | s in old(subscriptions) :: s.subscriptions == old(s.subscriptions)
        invariant forall s | s in old(subscriptions) ::
          s.subscribers == if s in todo then old(s.subscribers) else Without(old(s.subscribers), this)
        decreases todo
      {
        var s := Pick(todo);
        s.EraseHandler(this);
        todo := todo - {s};
      }
    }

    /** The copy emitEvent makes: the callbacks of every handler, in the order the container is iterated. */
    method Snapshot(event: int) returns (copy: seq<Callback>, ghost order: seq<EventObject>)
      ensures Lists(order, Registered(subscribers, event).Keys)
      ensures copy == Gather(Registered(subscribers, event), order)
    {
      copy, order := [], [];
      if event !in subscribers {
        return;
      }
      var callbacks := subscribers[event];
      var todo := callbacks.Keys;
      while todo != {}
        invariant todo <= callbacks.Keys && Lists(order, callbacks.Keys - todo)
        invariant copy == Gather(callbacks, order)
        decreases todo
      {
        var h := Pick(todo);
        copy := copy + callbacks[h];
        assert (order + [h])[..|order|] == order;
        order := order + [h];
        todo := todo - {h};
      }
      assert callbacks.Keys - todo == callbacks.Keys;
    }
  }

  /** What user code does; objects are named by when they were created, and only living ones are used. */
  datatype Action =
    | Make
    | Subscribe(source: nat, event: int, handler: nat, callback: Callback)
    | Delete(dying: nat)
    | Raise(source: nat, event: int)

  /** What is left of a plan once `k` callbacks have been called. */
  function Left(plan: seq<seq<Action>>, k: nat): (left: seq<seq<Action>>)
    ensures |left| <= |plan|
  {
    if k <= |plan| then plan[k..] else []
  }

  lemma LeftLeft(plan: seq<seq<Action>>, j: nat, k: nat)
    ensures Left(Left(plan, j), k) == Left(plan, j + k)
    ensures Left(plan, 0) == plan
  {
  }

  /** The object with this number is alive. */
  ghost predicate Lives(objects: seq<EventObject>, number: nat, w: World<EventObject>) {
    number < |objects| && objects[number] in w.subs
  }

  /** `steps` are what an action does from `w` on, objects being numbered as in `objects`. */
  ghost predicate Does(a: Action, objects: seq<EventObject>, w: World<EventObject>, steps: seq<Step<EventObject>>) {
    match a
    case Make => |steps| == 1 && steps[0].Create? && steps[0].newcomer in objects
    case Subscribe(s, e, h, c) =>
      steps == if Lives(objects, s, w) && Lives(objects, h, w) then [Step.Connect(objects[s], e, objects[h], c)] else []
    case Delete(d) => steps == if Lives(objects, d, w) then [Step.Destroy(objects[d])] else []
    case Raise(s, e) =>
      if Lives(objects, s, w) then
        steps != [] && steps[0].Emit? && steps[0].source == objects[s] && steps[0].event == e
      else steps == []
  }

  /** Objects made later are not alive before. */
  lemma DoesLater(a: Action, objects: seq<EventObject>, more: seq<EventObject>, w: World<EventObject>,
                  steps: seq<Step<EventObject>>)
    requires Does(a, objects, w, steps) && objects <= more
    requires forall i | |objects| <= i < |more| :: more[i] !in w.subs
    ensures Does(a, more, w, steps)
  {
    assert forall i | 0 <= i < |objects| :: more[i] == objects[i];
  }

  /** One action after the other, from world to world. */
  ghost predicate DoesAll(actions: seq<Action>, objects: seq<EventObject>, worlds: seq<World<EventObject>>,
                          parts: seq<seq<Step<EventObject>>>) {
    |worlds| == |actions| + 1 && |parts| == |actions|
    && forall j | 0 <= j < |actions| ::
         Does(actions[j], objects, worlds[j], parts[j])
         && LegalRun(worlds[j], parts[j]) && worlds[j + 1] == Run(worlds[j], parts[j])
  }

  /** The living of each world are among the objects. */
  ghost predicate AllKnown(worlds: seq<World<EventObject>>, objects: seq<EventObject>) {
    forall i, o | 0 <= i < |worlds| && o in worlds[i].subs :: o in objects
  }

  lemma KnownLater(worlds: seq<World<EventObject>>, known: seq<EventObject>, objects: seq<EventObject>,
                   w: World<EventObject>)
    requires AllKnown(worlds, known) && known <= objects && AllKnown([w], objects)
    ensures AllKnown(worlds + [w], objects)
  {
    assert forall o | o in known :: o in objects;
    assert [w][0] == w;
  }

  lemma NothingDone(objects: seq<EventObject>, w: World<EventObject>)
    ensures DoesAll([], objects, [w], [])
  {
  }

  lemma OneMoreDone(actions: seq<Action>, j: nat, known: seq<EventObject>, objects: seq<EventObject>,
                    worlds: seq<World<EventObject>>, parts: seq<seq<Step<EventObject>>>,
                    part: seq<Step<EventObject>>, w: World<EventObject>)
    requires j < |actions| && known <= objects && DoesAll(actions[..j], known, worlds, parts)
    requires LegalRun(worlds[j], part) && w == Run(worlds[j], part) && Does(actions[j], objects, worlds[j], part)
    requires AllKnown(worlds, known) && AllKnown([w], objects)
    requires forall k | |known| <= k < |objects| :: objects[k] !in known
    ensures DoesAll(actions[..j + 1], objects, worlds + [w], parts + [part])
    ensures AllKnown(worlds + [w], objects)
  {
    hide Does, LegalRun, Run;
    assert AllKnown(worlds + [w], objects) by { KnownLater(worlds, known, objects, w); }
    var done, later, more := actions[..j + 1], worlds + [w], parts + [part];
    forall i | 0 <= i < |done|
      ensures Does(done[i], objects, later[i], more[i])
      ensures LegalRun(later[i], more[i]) && later[i + 1] == Run(later[i], more[i])
    {
      if i < j {
        assert actions[..j][i] == done[i];
        assert forall k | |known| <= k < |objects| :: objects[k] !in worlds[i].subs;
        DoesLater(done[i], known, objects, worlds[i], parts[i]);
      }
    }
  }

  /**
   * A program over event objects.  `plan`: what each callback does, in the
   * order in which they are called.  `world` is what its runs are judged by.
   */
  class Program {
    var objects: seq<EventObject>
    var alive: set<EventObject>
    var plan: seq<seq<Action>>
    ghost var world: World<EventObject>

    ghost predicate Valid()
      reads this, objects
    {
      && alive == world.subs.Keys == world.known.Keys
      && (forall o | o in alive :: o in objects && world.known[o] <= set p | p in objects)
      && (forall o | o in alive :: o.subscribers == world.subs[o] && o.subscriptions == world.known[o])
    }

    constructor (plan: seq<seq<Action>>)
      ensures Valid() && objects == [] && alive == {} && this.plan == plan
      ensures world == Empty()
    {
      this.plan, objects, alive, world := plan, [], {}, Empty();
    }

    method Create() returns (o: EventObject)
      requires Valid()
      modifies this`objects, this`alive, this`world
      ensures Valid() && fresh(o) && objects == old(objects) + [o] && alive == old(alive) + {o}
      ensures Legal(old(world), Step.Create(o)) && world == Do(old(world), Step.Create(o))
    {
      o := new EventObject();
      objects, alive := objects + [o], alive + {o};
      world := Do(world, Step.Create(o));
    }

    method Connect(source: EventObject, event: int, handler: EventObject, callback: Callback)
      requires Valid() && source in alive && handler in alive
      modifies this`world, source, handler
      ensures Valid()
      ensures Legal(old(world), Step.Connect(source, event, handler, callback))
      ensures world == Do(old(world), Step.Connect(source, event, handler, callback))
    {
      source.ConnectTo(event, handler, callback);
      world := Do(world, Step.Connect(source, event, handler, callback));
    }

    method Destroy(o: EventObject)
      requires Valid() && o in alive
      modifies this`alive, this`world, objects
      ensures Valid() && alive == old(alive) - {o}
      ensures Legal(old(world), Step.Destroy(o)) && world == Do(old(world), Step.Destroy(o))
    {
      o.Destruct();
      alive := alive - {o};
      world := Do(world, Step.Destroy(o));
    }

    /**
     * A reply that dies before the connection that handles its Finished
     * event: the connection keeps a reference to it.
     */
    method ReplyDiesFirst(connection: EventObject, reply: EventObject, finished: int, callback: Callback)
      requires Valid() && TwoSided(world) && connection in alive && reply in alive && connection != reply
      modifies this, objects
      ensures Valid() && reply in connection.subscriptions && reply !in alive && connection in alive
      ensures !TwoSided(world) && Legal(world, Step.Destroy(connection)) && Do(world, Step.Destroy(connection)).strayed
    {
      hide Do, Legal, TwoSided;
      EventWorld.ReplyDiesFirst(world, connection, reply, finished, callback);
      Connect(reply, finished, connection, callback);
      Destroy(reply);
    }

    /**
     * The objects of a program are never forgotten, and what is added is new;
     * of the plan one list has been used up for each callback called.
     */
    twostate predicate Grown()
      reads this
    {
      |old(world).calls| <= |world.calls| && plan == Left(old(plan), |world.calls| - |old(world).calls|)
      && old(objects) <= objects
      && forall i | |old(objects)| <= i < |objects| :: fresh(objects[i])
    }

    /**
     * emitEvent: the callbacks registered on entry are copied, then called;
     * each does what the plan says, which may be to emit in its turn.  It is
     * a run of the state machine from the step that emits to the step that
     * ends the emission.
     */
    method EmitEvent(source: EventObject, event: int)
      returns (called: seq<Callback>, ghost order: seq<EventObject>, ghost steps: seq<Step<EventObject>>)
      requires Valid() && source in alive
      modifies this, objects
      ensures Valid() && Nested(old(world), steps, world) && Grown()
      ensures steps != [] && steps[0] == Step.Emit(source, event, order)
      ensures Lists(order, Registered(old(source.subscribers), event).Keys)
      ensures called == Gather(Registered(old(source.subscribers), event), order)
      ensures old(world).calls <= world.calls
      ensures AtDepth(world.calls[|old(world).calls|..], |old(world).stack| + 1) == called
      decreases |plan|, 1
    {
      hide Valid, Do, Nested, Emitting, Gather, Lists, Registered, AtDepth, Left;
      LeftLeft(plan, 0, 0);
      var copy: seq<Callback>;
      copy, order := Begin(source, event);
      steps := [Step.Emit(source, event, order)];
      called := [];
      var k := 0;
      while k < |copy|
        invariant k <= |copy| && called == copy[..k] && Valid() && Grown()
        invariant Emitting(old(world), steps, world, called, copy[k..])
        invariant steps != [] && steps[0] == Step.Emit(source, event, order)
      {
        assert copy[k..][1..] == copy[k + 1..];
        ghost var calls := |world.calls|;
        steps := CallNext(old(world), steps, called, copy[k..]);
        LeftLeft(old(plan), calls - |old(world).calls|, |world.calls| - calls);
        called := called + [copy[k]];
        k := k + 1;
      }
      assert copy[k..] == [];
      End(old(world), steps, called);
      steps := steps + [Step.Next];
    }

    /** The copy is made. */
    method Begin(source: EventObject, event: int) returns (copy: seq<Callback>, ghost order: seq<EventObject>)
      requires Valid() && source in alive
      modifies this`world
      ensures Valid() && Emitting(old(world), [Step.Emit(source, event, order)], world, [], copy)
      ensures world.calls == old(world).calls
      ensures Lists(order, Registered(source.subscribers, event).Keys)
      ensures copy == Gather(Registered(source.subscribers, event), order)
    {
      hide Do, Legal, Emitting, Gather, Lists;
      copy, order := source.Snapshot(event);
      EmitIsLegal(source, event, order);
      EmittingStarts(world, source, event, order);
      EmitKeepsObjects(world, source, event, order);
      world := Do(world, Step.Emit(source, event, order));
    }

    /** Nothing is left to call. */
    ghost method End(before: World<EventObject>, made: seq<Step<EventObject>>, done: seq<Callback>)
      requires Valid() && Emitting(before, made, world, done, [])
      modifies this`world
      ensures Valid() && Nested(before, made + [Step.Next], world) && world.calls == old(world).calls
      ensures before.calls <= world.calls && AtDepth(world.calls[|before.calls|..], |before.stack| + 1) == done
    {
      hide Do, Legal, Nested, Emitting;
      EmittingEnds(before, made, world, done);
      NextKeepsObjects(world);
      world := Do(world, Step.Next);
    }

    /** The next callback of an emission is called, and does what the plan says. */
    method CallNext(ghost before: World<EventObject>, ghost made: seq<Step<EventObject>>,
                    ghost done: seq<Callback>, ghost todo: seq<Callback>)
      returns (ghost steps: seq<Step<EventObject>>)
      requires Valid() && todo != [] && Emitting(before, made, world, done, todo)
      modifies this, objects
      ensures Valid() && Emitting(before, steps, world, done + [todo[0]], todo[1..]) && Grown()
      ensures made != [] ==> steps != [] && steps[0] == made[0]
      decreases |plan|, 0
    {
      hide Do, Legal, Nested, Emitting;
      EmittingCalls(before, made, world, done, todo);
      NextKeepsObjects(world);
      world, steps := Do(world, Step.Next), made + [Step.Next];
      if plan != [] {
        var actions := plan[0];
        plan := plan[1..];
        ghost var called := world;
        ghost var nested, worlds, parts := Perform(actions);
        EmittingNests(before, steps, called, done + [todo[0]], todo[1..], nested, world);
        steps := steps + nested;
      }
    }

    lemma EmitIsLegal(source: EventObject, event: int, order: seq<EventObject>)
      requires Valid() && source in alive && Lists(order, Registered(source.subscribers, event).Keys)
      ensures Legal(world, Step.Emit(source, event, order))
    {
    }

    lemma AliveIsLiving()
      requires Valid()
      ensures alive == world.subs.Keys
    {
    }

    lemma LivingKnown()
      requires Valid()
      ensures AllKnown([world], objects)
    {
    }

    /** User code: one action after the other, each from the world the one before has left. */
    method Perform(actions: seq<Action>)
      returns (ghost steps: seq<Step<EventObject>>, ghost worlds: seq<World<EventObject>>,
               ghost parts: seq<seq<Step<EventObject>>>)
      requires Valid()
      modifies this, objects
      ensures Valid() && Nested(old(world), steps, world) && Grown()
      ensures |worlds| == |actions| + 1 && DoesAll(actions, objects, worlds, parts)
      ensures worlds[0] == old(world) && worlds[|actions|] == world
      decreases |plan|, 3
    {
      hide Valid, Do, Legal, Nested, Does, DoesAll, AllKnown;
      steps, worlds, parts := [], [world], [];
      NothingDone(objects, world);
      LivingKnown();
      assert actions[..0] == [];
      NestedNothing(world);
      for j := 0 to |actions|
        invariant Valid() && Nested(old(world), steps, world) && Grown()
        invariant |worlds| == j + 1 && worlds[0] == old(world) && worlds[j] == world
        invariant DoesAll(actions[..j], objects, worlds, parts)
        invariant AllKnown(worlds, objects)
      {
        ghost var before, known := world, objects;
        ghost var more := Act(actions[j]);
        NestedRuns(before, more, world);
        NestedThen(old(world), steps, before, more, world);
        steps := steps + more;
        LivingKnown();
        OneMoreDone(actions, j, known, objects, worlds, parts, more, world);
        worlds, parts := worlds + [world], parts + [more];
      }
      assert actions[..|actions|] == actions;
    }

    /** One action; a name that is not a living object's is not used. */
    method Act(action: Action) returns (ghost steps: seq<Step<EventObject>>)
      requires Valid()
      modifies this, objects
      ensures Valid() && Nested(old(world), steps, world) && Grown()
      ensures Does(action, objects, old(world), steps)
      decreases |plan|, 2
    {
      hide Valid, Do, Legal, Nested;
      steps := [];
      NestedNothing(world);
      AliveIsLiving();
      match action
      case Make =>
        var o := Create();
        steps := [Step.Create(o)];
        NestedStep(old(world), Step.Create(o));
      case Subscribe(s, e, h, callback) =>
        if s < |objects| && h < |objects| && objects[s] in alive && objects[h] in alive {
          Connect(objects[s], e, objects[h], callback);
          steps := [Step.Connect(objects[s], e, objects[h], callback)];
          NestedStep(old(world), Step.Connect(objects[s], e, objects[h], callback));
        }
      case Delete(d) =>
        if d < |objects| && objects[d] in alive {
          Destroy(objects[d]);
          steps := [Step.Destroy(objects[d])];
          NestedStep(old(world), Step.Destroy(objects[d]));
        }
      case Raise(s, e) =>
        if s < |objects| && objects[s] in alive {
          ghost var order;
          var called;
          called, order, steps := EmitEvent(objects[s], e);
        }
    }
  }

  /**
   * A whole program, from no object on: what its objects have become is what
   * a run of the state machine makes of them, so both sides of every
   * subscription agree, and no destructor has visited an object that was
   * gone, if each object that was destroyed had no other handler left.
   */
  method Live(actions: seq<Action>, plan: seq<seq<Action>>)
    returns (p: Program, ghost steps: seq<Step<EventObject>>)
    ensures p.Valid() && LegalRun(Empty(), steps) && p.world == Run(Empty(), steps) && p.world.stack == []
    ensures Orderly(Empty(), steps) ==> TwoSided(p.world) && !p.world.strayed
  {
    hide Do, Legal;
    p := new Program(plan);
    ghost var worlds, parts;
    steps, worlds, parts := p.Perform(actions);
    RunsAreTwoSided(Empty(), steps);
  }

  lemma EmitKeepsObjects<O>(w: World<O>, source: O, event: int, order: seq<O>)
    requires Legal(w, Step.Emit(source, event, order))
    ensures var v := Do(w, Step.Emit(source, event, order)); v.subs == w.subs && v.known == w.known
  {
  }

  lemma NextKeepsObjects<O>(w: World<O>)
    requires Legal(w, Step.Next)
    ensures Do(w, Step.Next).subs == w.subs && Do(w, Step.Next).known == w.known
  {
  }
}
