/**
 * Runs of a program with events, as a state machine over the objects alive:
 * objects are created, connected and destroyed, events are emitted, and what
 * a callback does comes between its call and the next one, so emissions nest
 * as deep as the callbacks make them.  `O` stands for an object's address.
 */
module EventWorld {

  /** A registered callback, by identity. */
  type Callback = nat

  /** m_subscribers: for each event the callbacks of each handler. */
  type Subscribers<O> = map<int, map<O, seq<Callback>>>

  /** A callback that was called, and how many emissions were going on. */
  datatype Call = Call(depth: nat, callback: Callback)

  /**
   * The living objects with both sides of their subscriptions; the callbacks
   * each emission in progress has still to call, innermost last; the calls
   * so far; and whether a destructor has visited an object that was gone.
   */
  datatype World<O> = World(subs: map<O, Subscribers<O>>, known: map<O, set<O>>,
                            stack: seq<seq<Callback>>, calls: seq<Call>, strayed: bool)

  /** `order`: how the unordered container of handlers was iterated.  `Next`: the innermost emission goes on. */
  datatype Step<O> =
    | Create(newcomer: O)
    | Connect(source: O, event: int, handler: O, callback: Callback)
    | Destroy(dying: O)
    | Emit(source: O, event: int, order: seq<O>)
    | Next

  // ------------------------------------------------------------------ one object

  function Registered<O>(subs: Subscribers<O>, event: int): map<O, seq<Callback>> {
    if event in subs then subs[event] else map[]
  }

  /** The objects that handle some event. */
  ghost function HandlersIn<O>(subs: Subscribers<O>): set<O> {
    set e, h | e in subs && h in subs[e] :: h
  }

  /** One callback more for an event and a handler. */
  function Added<O(==)>(subs: Subscribers<O>, event: int, handler: O, callback: Callback): Subscribers<O> {
    var callbacks := Registered(subs, event);
    subs[event := callbacks[handler := (if handler in callbacks then callbacks[handler] else []) + [callback]]]
  }

  /** All of one handler's callbacks erased, for every event. */
  ghost function Without<O>(subs: Subscribers<O>, h: O): Subscribers<O> {
    map e | e in subs :: subs[e] - {h}
  }

  /** Every handler listed once. */
  ghost predicate Lists<O>(order: seq<O>, handlers: set<O>) {
    && (forall i, j | 0 <= i < j < |order| :: order[i] != order[j])
    && (forall i | 0 <= i < |order| :: order[i] in handlers)
    && (forall h | h in handlers :: h in order)
  }

  /** The callbacks of the handlers in `order`, each handler's in the order of connection. */
  function Gather<O(==)>(callbacks: map<O, seq<Callback>>, order: seq<O>): seq<Callback>
    requires forall i | 0 <= i < |order| :: order[i] in callbacks
  {
    if order == [] then []
    else Gather(callbacks, order[..|order| - 1]) + callbacks[order[|order| - 1]]
  }

  lemma AddedHandlers<O>(subs: Subscribers<O>, event: int, h: O, callback: Callback)
    ensures HandlersIn(Added(subs, event, h, callback)) == HandlersIn(subs) + {h}
  {
    var more := Added(subs, event, h, callback);
    forall k | k in HandlersIn(subs) + {h} ensures k in HandlersIn(more) {
      if k == h {
        assert event in more && h in more[event];
      } else {
        var e :| e in subs && k in subs[e];
        assert e in more && k in more[e];
      }
    }
    forall k | k in HandlersIn(more) ensures k in HandlersIn(subs) + {h} {
      var e :| e in more && k in more[e];
      if k != h { assert e in subs && k in subs[e]; }
    }
  }

  lemma WithoutHandlers<O>(subs: Subscribers<O>, h: O)
    ensures HandlersIn(Without(subs, h)) == HandlersIn(subs) - {h}
  {
    var less := Without(subs, h);
    forall k | k in HandlersIn(subs) - {h} ensures k in HandlersIn(less) {
      var e :| e in subs && k in subs[e];
      assert e in less && k in less[e];
    }
    forall k | k in HandlersIn(less) ensures k in HandlersIn(subs) - {h} {
      var e :| e in less && k in less[e];
      assert e in subs && k in subs[e];
    }
  }

  // -------------------------------------------------------------------- one step

  /** What user code has to respect: it names living objects, and new ones lie where none lives. */
  ghost predicate Legal<O>(w: World<O>, step: Step<O>) {
    && w.subs.Keys == w.known.Keys
    && match step
       case Create(o) => o !in w.subs
       case Connect(s, _, h, _) => s in w.subs && h in w.subs
       case Destroy(o) => o in w.subs
       case Emit(s, e, order) => s in w.subs && Lists(order, Registered(w.subs[s], e).Keys)
       case Next => w.stack != []
  }

  ghost function Do<O>(w: World<O>, step: Step<O>): World<O>
    requires Legal(w, step)
  {
    match step
    case Create(o) => w.(subs := w.subs[o := map[]], known := w.known[o := {}])
    case Connect(s, e, h, c) =>
      w.(subs := w.subs[s := Added(w.subs[s], e, h, c)], known := w.known[h := w.known[h] + {s}])
    case Destroy(o) =>
      w.(subs := (map s | s in w.subs && s != o :: if s in w.known[o] then Without(w.subs[s], o) else w.subs[s]),
         known := w.known - {o},
         strayed := w.strayed || !(w.known[o] <= w.subs.Keys))
    case Emit(s, e, order) => w.(stack := w.stack + [Gather(Registered(w.subs[s], e), order)])
    case Next =>
      var top := |w.stack| - 1;
      if w.stack[top] == [] then w.(stack := w.stack[..top])
      else w.(stack := w.stack[..top] + [w.stack[top][1..]],
              calls := w.calls + [Call(|w.stack|, w.stack[top][0])])
  }

  ghost predicate LegalRun<O>(w: World<O>, steps: seq<Step<O>>)
    decreases |steps|
  {
    steps == [] || (Legal(w, steps[0]) && LegalRun(Do(w, steps[0]), steps[1..]))
  }

  ghost function Run<O>(w: World<O>, steps: seq<Step<O>>): World<O>
    requires LegalRun(w, steps)
    decreases |steps|
  {
    if steps == [] then w else Run(Do(w, steps[0]), steps[1..])
  }

  lemma {:induction false} RunAppend<O>(w: World<O>, a: seq<Step<O>>, b: seq<Step<O>>)
    requires LegalRun(w, a) && LegalRun(Run(w, a), b)
    ensures LegalRun(w, a + b) && Run(w, a + b) == Run(Run(w, a), b)
    decreases |a|
  {
    hide Do, Legal;
    if a == [] {
      assert a + b == b;
    } else {
      assert (a + b)[1..] == a[1..] + b;
      RunAppend(Do(w, a[0]), a[1..], b);
    }
  }

  /** No object is alive yet. */
  ghost function Empty<O>(): World<O> {
    World(map[], map[], [], [], false)
  }

  // -------------------------------------------------------- both sides of a subscription

  /** Both sides agree among the living, and neither side knows an object that is gone. */
  ghost predicate TwoSided<O>(w: World<O>) {
    && w.subs.Keys == w.known.Keys
    && (forall s, h | s in w.subs && h in w.subs :: h in HandlersIn(w.subs[s]) <==> s in w.known[h])
    && (forall s | s in w.subs :: HandlersIn(w.subs[s]) <= w.subs.Keys)
    && (forall h | h in w.subs :: w.known[h] <= w.subs.Keys)
  }

  /** Nobody but the object itself handles the events of an object that is destroyed. */
  ghost predicate OrderlyStep<O>(w: World<O>, step: Step<O>)
    requires Legal(w, step)
  {
    step.Destroy? ==> HandlersIn(w.subs[step.dying]) <= {step.dying}
  }

  ghost predicate Orderly<O>(w: World<O>, steps: seq<Step<O>>)
    requires LegalRun(w, steps)
    decreases |steps|
  {
    steps == [] || (OrderlyStep(w, steps[0]) && Orderly(Do(w, steps[0]), steps[1..]))
  }

  ghost predicate TwoSidedThroughout<O>(w: World<O>, steps: seq<Step<O>>)
    requires LegalRun(w, steps)
    decreases |steps|
  {
    TwoSided(w) && (steps == [] || TwoSidedThroughout(Do(w, steps[0]), steps[1..]))
  }

  lemma CreateKeeps<O>(w: World<O>, o: O)
    requires TwoSided(w) && Legal(w, Create(o))
    ensures TwoSided(Do(w, Create(o)))
  {
    var d := Do(w, Create(o));
    assert HandlersIn(d.subs[o]) == {};
  }

  lemma ConnectKeeps<O>(w: World<O>, s: O, e: int, h: O, c: Callback)
    requires TwoSided(w) && Legal(w, Connect(s, e, h, c))
    ensures TwoSided(Do(w, Connect(s, e, h, c)))
  {
    hide HandlersIn, Added;
    AddedHandlers(w.subs[s], e, h, c);
  }

  /** The subscribers of the others once `o` is destroyed in a two-sided world. */
  lemma DestroyTakesOff<O>(w: World<O>, o: O)
    requires TwoSided(w) && Legal(w, Destroy(o))
    ensures var d := Do(w, Destroy(o));
      d.subs.Keys == d.known.Keys == w.subs.Keys - {o} && d.strayed == w.strayed
      && forall s | s in d.subs :: HandlersIn(d.subs[s]) == HandlersIn(w.subs[s]) - {o}
  {
    hide HandlersIn, Without;
    var d := Do(w, Destroy(o));
    forall s | s in d.subs
      ensures HandlersIn(d.subs[s]) == HandlersIn(w.subs[s]) - {o}
    {
      WithoutHandlers(w.subs[s], o);
    }
  }

  /**
   * Destroying an object takes it off every living source and visits no dead
   * one.  The others stay in agreement exactly when nobody else was handling
   * its events: when it does not die before its handlers.
   */
  lemma DestroyIsExact<O>(w: World<O>, o: O)
    requires TwoSided(w) && Legal(w, Destroy(o))
    ensures var d := Do(w, Destroy(o));
      d.strayed == w.strayed
      && (forall s | s in d.subs :: o !in HandlersIn(d.subs[s]))
      && (TwoSided(d) <==> OrderlyStep(w, Destroy(o)))
  {
    hide HandlersIn;
    DestroyTakesOff(w, o);
    var d := Do(w, Destroy(o));
    if h :| h in HandlersIn(w.subs[o]) && h != o {
      assert o in d.known[h] && o !in d.subs;
    }
  }

  lemma StepIsExact<O>(w: World<O>, step: Step<O>)
    requires TwoSided(w) && Legal(w, step)
    ensures TwoSided(Do(w, step)) <==> OrderlyStep(w, step)
    ensures Do(w, step).strayed == w.strayed
  {
    match step
    case Create(o) => CreateKeeps(w, o);
    case Connect(s, e, h, c) => ConnectKeeps(w, s, e, h, c);
    case Destroy(o) => DestroyIsExact(w, o);
    case _ =>
  }

  /**
   * For every run - creating, connecting, emitting at any depth, destroying -
   * from a two-sided world: the two sides agree after every step if and only
   * if no object is destroyed while another one handles its events; and then
   * no destructor ever visits an object that is gone.
   */
  lemma {:induction false} RunsAreTwoSided<O>(w: World<O>, steps: seq<Step<O>>)
    requires TwoSided(w) && LegalRun(w, steps)
    ensures TwoSidedThroughout(w, steps) <==> Orderly(w, steps)
    ensures Orderly(w, steps) ==> TwoSided(Run(w, steps)) && Run(w, steps).strayed == w.strayed
    decreases |steps|
  {
    hide TwoSided, OrderlyStep, Do;
    if steps != [] {
      StepIsExact(w, steps[0]);
      if TwoSided(Do(w, steps[0])) {
        RunsAreTwoSided(Do(w, steps[0]), steps[1..]);
      }
    }
  }

  /**
   * In every two-sided world: a reply that dies before the connection that
   * handles its Finished event leaves the connection with a reference to it,
   * and the connection's own destructor then follows that reference.
   */
  lemma ReplyDiesFirst<O>(w: World<O>, connection: O, reply: O, finished: int, callback: Callback)
    requires TwoSided(w) && connection in w.subs && reply in w.subs && connection != reply
    ensures var u := Do(w, Connect(reply, finished, connection, callback));
      Legal(u, Destroy(reply)) && !OrderlyStep(u, Destroy(reply))
      && var d := Do(u, Destroy(reply));
         !TwoSided(d) && reply in d.known[connection] && reply !in d.subs
         && Legal(d, Destroy(connection)) && Do(d, Destroy(connection)).strayed
  {
    hide HandlersIn, Added;
    ConnectKeeps(w, reply, finished, connection, callback);
    AddedHandlers(w.subs[reply], finished, connection, callback);
    DestroyIsExact(Do(w, Connect(reply, finished, connection, callback)), reply);
  }

  // ---------------------------------------------------------------------- emission

  /** The callbacks called while exactly `d` emissions were going on. */
  function AtDepth(calls: seq<Call>, d: nat): seq<Callback> {
    if calls == [] then []
    else AtDepth(calls[..|calls| - 1], d)
         + if calls[|calls| - 1].depth == d then [calls[|calls| - 1].callback] else []
  }

  lemma {:induction false} AtDepthAppend(a: seq<Call>, b: seq<Call>, d: nat)
    ensures AtDepth(a + b, d) == AtDepth(a, d) + AtDepth(b, d)
    decreases |b|
  {
    if b == [] {
      assert a + b == a;
    } else {
      assert (a + b)[..|a + b| - 1] == a + b[..|b| - 1];
      AtDepthAppend(a, b[..|b| - 1], d);
    }
  }

  /** The emission at depth `d` + 1 is still going on, whatever is nested in it, after every step. */
  ghost predicate GoesOn<O>(w: World<O>, steps: seq<Step<O>>, d: nat)
    requires LegalRun(w, steps)
    decreases |steps|
  {
    |w.stack| > d && (steps == [] || GoesOn(Do(w, steps[0]), steps[1..], d))
  }

  lemma {:induction false} GoesOnAppend<O>(w: World<O>, a: seq<Step<O>>, b: seq<Step<O>>, d: nat)
    requires LegalRun(w, a) && LegalRun(Run(w, a), b) && LegalRun(w, a + b)
    requires GoesOn(w, a, d) && GoesOn(Run(w, a), b, d)
    ensures GoesOn(w, a + b, d)
    decreases |a|
  {
    hide Do, Legal;
    if a == [] {
      assert a + b == b;
    } else {
      assert (a + b)[1..] == a[1..] + b;
      GoesOnAppend(Do(w, a[0]), a[1..], b, d);
    }
  }

  /** From `w` to `v` the emission at depth `d` + 1 went on: what it called is what it has no longer to call. */
  ghost predicate Went<O>(w: World<O>, v: World<O>, d: nat) {
    && |w.stack| > d && |v.stack| > d && v.stack[..d] == w.stack[..d] && w.calls <= v.calls
    && AtDepth(v.calls[|w.calls|..], d + 1) + v.stack[d] == w.stack[d]
  }

  lemma StepWent<O>(w: World<O>, step: Step<O>, d: nat)
    requires Legal(w, step) && |w.stack| > d && |Do(w, step).stack| > d
    ensures Went(w, Do(w, step), d)
  {
    var v := Do(w, step);
    if step.Next? && w.stack[|w.stack| - 1] != [] {
      var made := [Call(|w.stack|, w.stack[|w.stack| - 1][0])];
      assert v.calls[|w.calls|..] == made && made[..0] == [];
    } else {
      assert v.calls[|w.calls|..] == [];
    }
  }

  lemma WentOn<O>(u: World<O>, w: World<O>, v: World<O>, d: nat)
    requires Went(u, w, d) && Went(w, v, d)
    ensures Went(u, v, d)
  {
    hide AtDepth;
    var first, second := w.calls[|u.calls|..], v.calls[|w.calls|..];
    AtDepthAppend(first, second, d + 1);
    assert v.calls[|u.calls|..] == first + second;
  }

  lemma {:induction false} StepsWent<O>(w: World<O>, steps: seq<Step<O>>, d: nat)
    requires LegalRun(w, steps) && GoesOn(w, steps, d)
    ensures Went(w, Run(w, steps), d)
    decreases |steps|
  {
    hide Do, Legal;
    if steps == [] {
      assert w.calls[|w.calls|..] == [];
    } else {
      hide Went;
      StepWent(w, steps[0], d);
      StepsWent(Do(w, steps[0]), steps[1..], d);
      WentOn(w, Do(w, steps[0]), Run(w, steps), d);
    }
  }

  /**
   * Snapshot dispatch: from the step that emits an event to the step that
   * ends this emission, its own calls are exactly the callbacks registered
   * when it began - handler after handler, each handler's in the order of
   * connection - whatever is connected, destroyed or emitted meanwhile; and
   * the emissions around it go on where they were.
   */
  lemma EmissionCallsSnapshot<O>(w: World<O>, source: O, event: int, order: seq<O>, steps: seq<Step<O>>)
    requires Legal(w, Emit(source, event, order)) && LegalRun(Do(w, Emit(source, event, order)), steps)
    requires GoesOn(Do(w, Emit(source, event, order)), steps, |w.stack|)
    requires var v := Run(Do(w, Emit(source, event, order)), steps);
      Legal(v, Next) && |Do(v, Next).stack| == |w.stack|
    ensures var d := Do(Run(Do(w, Emit(source, event, order)), steps), Next);
      d.stack == w.stack && w.calls <= d.calls
      && AtDepth(d.calls[|w.calls|..], |w.stack| + 1) == Gather(Registered(w.subs[source], event), order)
  {
    hide Gather, AtDepth, GoesOn, LegalRun;
    StepsWent(Do(w, Emit(source, event, order)), steps, |w.stack|);
  }

  // ------------------------------------------------- what user code does, as runs

  /** From `w` to `v` by `steps`, above the emissions that were going on; these still are. */
  ghost predicate Nested<O>(w: World<O>, steps: seq<Step<O>>, v: World<O>) {
    && LegalRun(w, steps) && v == Run(w, steps) && v.stack == w.stack
    && (w.stack != [] ==> GoesOn(w, steps, |w.stack| - 1))
  }

  /** The same, with one emission begun on the way that has made the calls `done` and has still `todo` to make. */
  ghost predicate Emitting<O>(w: World<O>, steps: seq<Step<O>>, v: World<O>, done: seq<Callback>, todo: seq<Callback>) {
    && LegalRun(w, steps) && steps != [] && v == Run(w, steps) && v.stack == w.stack + [todo]
    && (w.stack != [] ==> GoesOn(w, steps, |w.stack| - 1))
    && w.calls <= v.calls && AtDepth(v.calls[|w.calls|..], |w.stack| + 1) == done
  }

  lemma {:induction false} GoesOnBelow<O>(w: World<O>, steps: seq<Step<O>>, d: nat, lower: nat)
    requires LegalRun(w, steps) && GoesOn(w, steps, d) && lower <= d
    ensures GoesOn(w, steps, lower)
    decreases |steps|
  {
    hide Do, Legal;
    if steps != [] {
      GoesOnBelow(Do(w, steps[0]), steps[1..], d, lower);
    }
  }

  lemma OneStep<O>(w: World<O>, step: Step<O>)
    requires Legal(w, step)
    ensures LegalRun(w, [step]) && Run(w, [step]) == Do(w, step)
    ensures forall d: nat :: |w.stack| > d && |Do(w, step).stack| > d ==> GoesOn(w, [step], d)
  {
    hide Do, Legal;
    var v := Do(w, step);
    assert [step][1..] == [];
    assert LegalRun(v, []) && Run(v, []) == v;
    forall d: nat | |w.stack| > d && |v.stack| > d
      ensures GoesOn(w, [step], d)
    {
      assert GoesOn(v, [], d);
    }
  }

  lemma NestedNothing<O>(w: World<O>)
    ensures Nested(w, [], w)
  {
  }

  lemma NestedRuns<O>(w: World<O>, steps: seq<Step<O>>, v: World<O>)
    requires Nested(w, steps, v)
    ensures LegalRun(w, steps) && v == Run(w, steps)
  {
    hide LegalRun, Run, GoesOn;
  }

  lemma NestedThen<O>(w: World<O>, a: seq<Step<O>>, v: World<O>, b: seq<Step<O>>, u: World<O>)
    requires Nested(w, a, v) && Nested(v, b, u)
    ensures Nested(w, a + b, u)
  {
    hide LegalRun, Run, GoesOn;
    RunAppend(w, a, b);
    if w.stack != [] { GoesOnAppend(w, a, b, |w.stack| - 1); }
  }

  lemma NestedStep<O>(w: World<O>, step: Step<O>)
    requires Legal(w, step) && (step.Create? || step.Connect? || step.Destroy?)
    ensures Nested(w, [step], Do(w, step)) && Do(w, step).calls == w.calls
  {
    hide LegalRun, Run, GoesOn, Legal;
    OneStep(w, step);
  }

  lemma EmittingStarts<O>(w: World<O>, source: O, event: int, order: seq<O>)
    requires Legal(w, Emit(source, event, order))
    ensures Emitting(w, [Emit(source, event, order)], Do(w, Emit(source, event, order)), [],
                     Gather(Registered(w.subs[source], event), order))
    ensures Do(w, Emit(source, event, order)).calls == w.calls
  {
    hide LegalRun, Run, GoesOn, Gather;
    OneStep(w, Emit(source, event, order));
    assert w.calls[|w.calls|..] == [];
  }

  lemma EmittingCalls<O>(w: World<O>, steps: seq<Step<O>>, v: World<O>, done: seq<Callback>, todo: seq<Callback>)
    requires Emitting(w, steps, v, done, todo) && todo != []
    ensures Legal(v, Next) && Emitting(w, steps + [Next], Do(v, Next), done + [todo[0]], todo[1..])
    ensures |Do(v, Next).calls| == |v.calls| + 1
  {
    hide LegalRun, Run, GoesOn;
    LegalStays(w, steps);
    OneStep(v, Next);
    RunAppend(w, steps, [Next]);
    if w.stack != [] { GoesOnAppend(w, steps, [Next], |w.stack| - 1); }
    var made, call := v.calls[|w.calls|..], Call(|v.stack|, todo[0]);
    assert Do(v, Next).calls[|w.calls|..] == made + [call] && (made + [call])[..|made|] == made;
  }

  /** What is nested in an emission makes no call of its own. */
  lemma EmittingNests<O>(w: World<O>, steps: seq<Step<O>>, v: World<O>, done: seq<Callback>, todo: seq<Callback>,
                         nested: seq<Step<O>>, u: World<O>)
    requires Emitting(w, steps, v, done, todo) && Nested(v, nested, u)
    ensures Emitting(w, steps + nested, u, done, todo)
  {
    hide LegalRun, Run, GoesOn, AtDepth;
    RunAppend(w, steps, nested);
    if w.stack != [] {
      GoesOnBelow(v, nested, |w.stack|, |w.stack| - 1);
      GoesOnAppend(w, steps, nested, |w.stack| - 1);
    }
    StepsWent(v, nested, |w.stack|);
    var made, more := v.calls[|w.calls|..], u.calls[|v.calls|..];
    assert u.calls[|w.calls|..] == made + more;
    AtDepthAppend(made, more, |w.stack| + 1);
  }

  lemma EmittingEnds<O>(w: World<O>, steps: seq<Step<O>>, v: World<O>, done: seq<Callback>)
    requires Emitting(w, steps, v, done, [])
    ensures Legal(v, Next) && Nested(w, steps + [Next], Do(v, Next)) && Do(v, Next).calls == v.calls
    ensures w.calls <= Do(v, Next).calls && AtDepth(Do(v, Next).calls[|w.calls|..], |w.stack| + 1) == done
  {
    hide LegalRun, Run, GoesOn, AtDepth;
    LegalStays(w, steps);
    OneStep(v, Next);
    RunAppend(w, steps, [Next]);
    if w.stack != [] { GoesOnAppend(w, steps, [Next], |w.stack| - 1); }
  }

  /** Both sides are kept for the same objects. */
  lemma {:induction false} LegalStays<O>(w: World<O>, steps: seq<Step<O>>)
    requires LegalRun(w, steps) && steps != []
    ensures Run(w, steps).subs.Keys == Run(w, steps).known.Keys
    decreases |steps|
  {
    if |steps| == 1 {
      assert Run(Do(w, steps[0]), steps[1..]) == Do(w, steps[0]);
    } else {
      LegalStays(Do(w, steps[0]), steps[1..]);
    }
  }

  // ---------------------------------------------- who is called, by what was connected

  /** What one step does to the callbacks of `h` for event `e` of `s`. */
  function HeardStep<O(==)>(before: seq<Callback>, step: Step<O>, s: O, e: int, h: O): seq<Callback> {
    match step
    case Create(o) => if o == s || o == h then [] else before
    case Destroy(o) => if o == s || o == h then [] else before
    case Connect(source, event, handler, c) =>
      if source == s && event == e && handler == h then before + [c] else before
    case _ => before
  }

  function HeardAfter<O(==)>(before: seq<Callback>, steps: seq<Step<O>>, s: O, e: int, h: O): seq<Callback>
    decreases |steps|
  {
    if steps == [] then before else HeardAfter(HeardStep(before, steps[0], s, e, h), steps[1..], s, e, h)
  }

  /** The callbacks connected for `h` to event `e` of `s` since both were last created, in the order of connection. */
  function Heard<O(==)>(steps: seq<Step<O>>, s: O, e: int, h: O): seq<Callback> {
    HeardAfter([], steps, s, e, h)
  }

  /** What the world has registered. */
  function CallbacksOf<O(==)>(w: World<O>, s: O, e: int, h: O): seq<Callback> {
    if s in w.subs && e in w.subs[s] && h in w.subs[s][e] then w.subs[s][e][h] else []
  }

  /** In every world a program can reach: handlers are alive and know their sources, and each has some callback. */
  ghost predicate Kept<O>(w: World<O>) {
    && w.subs.Keys == w.known.Keys
    && (forall s, e, h | s in w.subs && e in w.subs[s] && h in w.subs[s][e] :: Alive(w, s, e, h))
  }

  /** Handler `h` is alive, knows `s`, and has a callback for event `e` of it. */
  predicate Alive<O(==)>(w: World<O>, s: O, e: int, h: O) {
    h in w.known && s in w.known[h] && CallbacksOf(w, s, e, h) != []
  }

  lemma CreateHears<O>(w: World<O>, o: O, s: O, e: int, h: O)
    requires Kept(w) && Legal(w, Create(o))
    ensures var d := Do(w, Create(o));
      Kept(d) && CallbacksOf(d, s, e, h) == HeardStep(CallbacksOf(w, s, e, h), Create(o), s, e, h)
  {
    var d := Do(w, Create(o));
    forall s', e', h' | s' in d.subs && e' in d.subs[s'] && h' in d.subs[s'][e']
      ensures Alive(d, s', e', h')
    {
      assert Alive(w, s', e', h');
    }
    if s in w.subs && e in w.subs[s] && h in w.subs[s][e] { assert Alive(w, s, e, h); }
  }

  lemma ConnectHears<O>(w: World<O>, source: O, event: int, handler: O, c: Callback, s: O, e: int, h: O)
    requires Kept(w) && Legal(w, Connect(source, event, handler, c))
    ensures var step := Connect(source, event, handler, c);
      var d := Do(w, step);
      Kept(d) && CallbacksOf(d, s, e, h) == HeardStep(CallbacksOf(w, s, e, h), step, s, e, h)
  {
    var d := Do(w, Connect(source, event, handler, c));
    forall s', e', h' | s' in d.subs && e' in d.subs[s'] && h' in d.subs[s'][e']
      ensures Alive(d, s', e', h')
    {
      if s' != source || e' != event || h' != handler {
        assert s' in w.subs && e' in w.subs[s'] && h' in w.subs[s'][e'];
        assert Alive(w, s', e', h');
      }
    }
  }

  lemma DestroyHears<O>(w: World<O>, o: O, s: O, e: int, h: O)
    requires Kept(w) && Legal(w, Destroy(o))
    ensures var d := Do(w, Destroy(o));
      Kept(d) && CallbacksOf(d, s, e, h) == HeardStep(CallbacksOf(w, s, e, h), Destroy(o), s, e, h)
  {
    var d := Do(w, Destroy(o));
    forall s', e', h' | s' in d.subs && e' in d.subs[s'] && h' in d.subs[s'][e']
      ensures Alive(d, s', e', h')
    {
      assert s' in w.subs && e' in w.subs[s'] && h' in w.subs[s'][e'];
      assert Alive(w, s', e', h');
    }
    if s in w.subs && e in w.subs[s] && h in w.subs[s][e] { assert Alive(w, s, e, h); }
  }

  lemma StepHears<O>(w: World<O>, step: Step<O>, s: O, e: int, h: O)
    requires Kept(w) && Legal(w, step)
    ensures var d := Do(w, step);
      Kept(d) && CallbacksOf(d, s, e, h) == HeardStep(CallbacksOf(w, s, e, h), step, s, e, h)
  {
    match step
    case Create(o) => CreateHears(w, o, s, e, h);
    case Connect(source, event, handler, c) => ConnectHears(w, source, event, handler, c, s, e, h);
    case Destroy(o) => DestroyHears(w, o, s, e, h);
    case _ =>
  }

  lemma {:induction false} RunHears<O>(w: World<O>, steps: seq<Step<O>>, s: O, e: int, h: O)
    requires Kept(w) && LegalRun(w, steps)
    ensures Kept(Run(w, steps))
    ensures CallbacksOf(Run(w, steps), s, e, h) == HeardAfter(CallbacksOf(w, s, e, h), steps, s, e, h)
    decreases |steps|
  {
    hide Kept, Do, Legal, CallbacksOf, HeardStep;
    if steps != [] {
      StepHears(w, steps[0], s, e, h);
      RunHears(Do(w, steps[0]), steps[1..], s, e, h);
    }
  }

  /**
   * After every run: what a handler has registered for an event of a source
   * is exactly what was connected since both were last created, in order.
   */
  lemma RegisteredIsHeard<O>(steps: seq<Step<O>>, s: O, e: int, h: O)
    requires LegalRun(Empty(), steps)
    ensures CallbacksOf(Run(Empty(), steps), s, e, h) == Heard(steps, s, e, h)
  {
    RunHears(Empty(), steps, s, e, h);
  }

  /** `calls` are the calls of the first list, then those of the second, and so on. */
  ghost predicate InTurn(calls: seq<Callback>, lists: seq<seq<Callback>>) {
    exists cuts: seq<nat> :: Cuts(cuts, calls, lists)
  }

  predicate Cuts(cuts: seq<nat>, calls: seq<Callback>, lists: seq<seq<Callback>>) {
    |cuts| == |lists| + 1 && cuts[0] == 0 && cuts[|lists|] == |calls|
    && forall i | 0 <= i < |lists| :: Part(calls, cuts[i], cuts[i + 1], lists[i])
  }

  /** The calls from `a` up to `b` are those of `list`. */
  predicate Part(calls: seq<Callback>, a: nat, b: nat, list: seq<Callback>) {
    a <= b <= |calls| && calls[a..b] == list
  }

  function ListsOf<O>(callbacks: map<O, seq<Callback>>, order: seq<O>): seq<seq<Callback>>
    requires forall i | 0 <= i < |order| :: order[i] in callbacks
  {
    seq(|order|, i requires 0 <= i < |order| => callbacks[order[i]])
  }

  lemma {:induction false} GatherInTurn<O>(callbacks: map<O, seq<Callback>>, order: seq<O>)
    requires forall i | 0 <= i < |order| :: order[i] in callbacks
    ensures InTurn(Gather(callbacks, order), ListsOf(callbacks, order))
    decreases |order|
  {
    if order == [] {
      assert Cuts([0], [], []);
    } else {
      var front := order[..|order| - 1];
      GatherInTurn(callbacks, front);
      var cuts: seq<nat> :| Cuts(cuts, Gather(callbacks, front), ListsOf(callbacks, front));
      CutsGrow(cuts, Gather(callbacks, front), ListsOf(callbacks, front), callbacks[order[|order| - 1]]);
      assert ListsOf(callbacks, order) == ListsOf(callbacks, front) + [callbacks[order[|order| - 1]]];
    }
  }

  lemma CutsGrow(cuts: seq<nat>, calls: seq<Callback>, lists: seq<seq<Callback>>, last: seq<Callback>)
    requires Cuts(cuts, calls, lists)
    ensures Cuts(cuts + [|calls + last|], calls + last, lists + [last])
  {
    var more, all := cuts + [|calls + last|], calls + last;
    forall i | 0 <= i < |lists + [last]|
      ensures Part(all, more[i], more[i + 1], (lists + [last])[i])
    {
      if i < |lists| {
        assert Part(calls, cuts[i], cuts[i + 1], lists[i]);
        assert all[more[i]..more[i + 1]] == calls[cuts[i]..cuts[i + 1]];
      } else {
        assert all[|calls|..] == last;
      }
    }
  }

  /**
   * Emission, in every run: the calls it makes itself are, handler after
   * handler, the callbacks that were connected for that handler since it and
   * the source were last created, in the order of connection; the handlers
   * are those that have any, each once.
   */
  lemma EmissionCallsConnected<O>(before: seq<Step<O>>, source: O, event: int, order: seq<O>, steps: seq<Step<O>>, h: O)
    requires LegalRun(Empty(), before)
    requires Legal(Run(Empty(), before), Emit(source, event, order))
    requires var w := Do(Run(Empty(), before), Emit(source, event, order));
      LegalRun(w, steps) && GoesOn(w, steps, |w.stack| - 1) && Legal(Run(w, steps), Next)
      && |Do(Run(w, steps), Next).stack| == |w.stack| - 1
    ensures var w := Run(Empty(), before);
      var d := Do(Run(Do(w, Emit(source, event, order)), steps), Next);
      w.calls <= d.calls
      && InTurn(AtDepth(d.calls[|w.calls|..], |w.stack| + 1),
                seq(|order|, i requires 0 <= i < |order| => Heard(before, source, event, order[i])))
    ensures h in order <==> Heard(before, source, event, h) != []
    ensures forall i, j | 0 <= i < j < |order| :: order[i] != order[j]
  {
    hide Gather, AtDepth, GoesOn, LegalRun, Heard, Run, InTurn;
    var w := Run(Empty(), before);
    var callbacks := Registered(w.subs[source], event);
    EmissionCallsSnapshot(w, source, event, order, steps);
    GatherInTurn(callbacks, order);
    forall i | 0 <= i < |order|
      ensures callbacks[order[i]] == Heard(before, source, event, order[i])
    {
      RegisteredIsHeard(before, source, event, order[i]);
    }
    assert ListsOf(callbacks, order)
        == seq(|order|, i requires 0 <= i < |order| => Heard(before, source, event, order[i]));
    RegisteredIsHeard(before, source, event, h);
    RunHears(Empty(), before, source, event, h);
    ListedIfAny(w, source, event, h);
    assert h in order ==> h in callbacks;
  }

  lemma ListedIfAny<O>(w: World<O>, s: O, e: int, h: O)
    requires Kept(w) && s in w.subs
    ensures h in Registered(w.subs[s], e) <==> CallbacksOf(w, s, e, h) != []
  {
    if e in w.subs[s] && h in w.subs[s][e] {
      assert Alive(w, s, e, h);
    }
  }
}
