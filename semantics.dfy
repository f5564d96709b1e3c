/** What each operation of the container (src/Container.php) does, as a
    function from a state to a result and the state it leaves. The class in
    container.dfy is proved to compute exactly these functions. Termination:
    every call that recurses has just marked an id of the finite `Universe`
    in flight, and the in-flight set comes back unchanged from every call. */
module Semantics {
  import opened FactoryDefinitions
  import opened Model

  /** Argument `v` is what parameter `p` receives: the memoized entry of its
      class (after the alias step) or, without a class type, its default. */
  predicate Supplies(t: State, p: Param, v: Value) {
    match p.classType
    case Some(c) => Memoized(t, Target(t.typeMapping, c), v)
    case None => p.defaultValue.Some? && v == Default(p.defaultValue.value)
  }

  /** `args` are, position by position, what `params` receive in `t`. */
  ghost predicate SuppliesAll(t: State, params: seq<Param>, args: seq<Value>) {
    |args| == |params| && forall i :: 0 <= i < |params| ==> Supplies(t, params[i], args[i])
  }

  /** `args` are, position by position, the memoized entries of `deps`. */
  ghost predicate Injected(t: State, deps: seq<Id>, args: seq<Value>) {
    |args| == |deps| && forall i :: 0 <= i < |deps| ==> Memoized(t, Target(t.typeMapping, deps[i]), args[i])
  }

  /** A successful reflective instantiation of `id` from `s`: a new object of
      class `id`, allocated during the call, whose constructor received what
      its declared parameters call for. */
  ghost predicate Constructed(s: State, o: Outcome<Value>, id: Id)
    requires o.result.Ok?
  {
    && id in s.classes && s.classes[id].instantiable
    && o.result.value.Instance? && o.result.value.cls == id
    && s.nextRef <= o.result.value.ref < o.state.nextRef
    && SuppliesAll(o.state, s.classes[id].params, o.result.value.args)
  }

  /** `new` on class `cls` with `args`: an object with the next token. */
  function NewInstance(t: State, cls: Id, args: seq<Value>): (o: Outcome<Value>) {
    Outcome(Ok(Instance(t.nextRef, cls, args)), t.(nextRef := t.nextRef + 1))
  }

  /** A resolved argument in front of the rest of a left-to-right
      resolution; a failure of the rest passes through. */
  function Cons(v: Value, rest: Outcome<seq<Value>>): (o: Outcome<seq<Value>>) {
    if rest.result.Ok? then Outcome(Ok([v] + rest.result.value), rest.state) else rest
  }

  lemma EvolvesTransitive(s: State, t: State, u: State)
    requires Evolves(s, t) && Evolves(t, u)
    ensures Evolves(s, u)
  {
  }

  /** `get`: rewrite an alias once, answer from the memo, refuse a cycle, or
      build the value with the id marked in flight and memoize it. */
  function Get(s: State, id: Id): (o: Outcome<Value>)
    requires Consistent(s)
    decreases Pending(s), 2, 0
    ensures Consistent(o.state) && Evolves(s, o.state)
    ensures o.result.Ok? ==> Memoized(o.state, Target(s.typeMapping, id), o.result.value)
    ensures o.result.Err? ==> Target(s.typeMapping, id) !in o.state.resolvedEntries
  {
    var key := Target(s.typeMapping, id);
    var typeFactory := FactoryFor(s.typeMapping, id);
    if key in s.resolvedEntries then
      Outcome(Ok(s.resolvedEntries[key]), s)
    else if key in s.entriesBeingResolved then
      Outcome(Err(ContainerError(CircularDependency(key))), s)
    else
      var marked := s.(entriesBeingResolved := s.entriesBeingResolved + {key});
      MarkedPending(s, key);
      var built :=
        if typeFactory.Some? then InstantiateFromFactory(marked, key, typeFactory.value)
        else Instantiate(marked, key);
      Release(s, key, built)
  }

  /** The end of `get`: memoize a value that was built, then (the `finally`)
      take `key` out of the in-flight set again. */
  function Release(s: State, key: Id, built: Outcome<Value>): (o: Outcome<Value>)
    requires Consistent(s) && key !in s.resolvedEntries && key !in s.entriesBeingResolved
    requires Consistent(built.state)
    requires Evolves(s.(entriesBeingResolved := s.entriesBeingResolved + {key}), built.state)
    requires built.result.Ok? ==> Allocated(built.result.value, built.state.nextRef)
    ensures o.result == built.result
    ensures Consistent(o.state) && Evolves(s, o.state)
    ensures o.result.Ok? ==> Memoized(o.state, key, o.result.value)
    ensures o.result.Err? ==> key !in o.state.resolvedEntries
  {
    assert (s.entriesBeingResolved + {key}) - {key} == s.entriesBeingResolved;
    var stored :=
      if built.result.Ok? then built.state.(resolvedEntries := built.state.resolvedEntries[key := built.result.value])
      else built.state;
    Outcome(built.result, stored.(entriesBeingResolved := stored.entriesBeingResolved - {key}))
  }

  /** `instantiateFromFactory`: resolve the dependencies in order, then call
      the closure with exactly those arguments. */
  function InstantiateFromFactory(s: State, id: Id, typeFactory: FactoryDefinition): (o: Outcome<Value>)
    requires Consistent(s) && id in s.entriesBeingResolved && id in s.typeMapping
    decreases PendingWithout(s, id), 1, 0
    ensures Consistent(o.state) && Evolves(s, o.state)
    ensures o.result.Ok? ==>
      && typeFactory.GetFactory().required <= |typeFactory.GetDependencies()|
      && typeFactory.GetFactory().returnsObject
      && o.result.value.Produced?
      && o.result.value.closure == typeFactory.GetFactory()
      && Injected(o.state, typeFactory.GetDependencies(), o.result.value.args)
  {
    var args := ResolveDependencies(s, id, typeFactory.GetDependencies());
    if args.result.Err? then
      Outcome(Err(args.result.error), args.state)
    else if |args.result.value| < typeFactory.GetFactory().required then
      Outcome(Err(ContainerError(TooFewArguments(id))), args.state)
    else if !typeFactory.GetFactory().returnsObject then
      Outcome(Err(ReturnTypeError(id)), args.state)
    else
      Outcome(Ok(Produced(typeFactory.GetFactory(), args.result.value)), args.state)
  }

  /** The `array_map` of `get` over a factory's dependencies, left to right,
      stopping at the first failure. `owner` is the id being built. */
  function ResolveDependencies(s: State, owner: Id, deps: seq<Id>): (o: Outcome<seq<Value>>)
    requires Consistent(s) && owner in s.entriesBeingResolved && owner in Universe(s)
    decreases PendingWithout(s, owner), 0, |deps|
    ensures Consistent(o.state) && Evolves(s, o.state)
    ensures o.result.Ok? ==> Injected(o.state, deps, o.result.value)
  {
    if deps == [] then
      Outcome(Ok([]), s)
    else
      PendingDrops(s, owner);
      var first := Get(s, deps[0]);
      if first.result.Err? then
        Outcome(Err(first.result.error), first.state)
      else
        var rest := ResolveDependencies(first.state, owner, deps[1..]);
        EvolvesTransitive(s, first.state, rest.state);
        InjectedCons(first.state, deps, first.result.value, rest);
        Cons(first.result.value, rest)
  }

  /** One more resolved dependency in front of those already injected. */
  lemma InjectedCons(t: State, deps: seq<Id>, v: Value, rest: Outcome<seq<Value>>)
    requires deps != [] && Evolves(t, rest.state)
    requires Memoized(t, Target(t.typeMapping, deps[0]), v)
    requires rest.result.Ok? ==> Injected(rest.state, deps[1..], rest.result.value)
    ensures Cons(v, rest).result.Ok? ==> Injected(rest.state, deps, Cons(v, rest).result.value)
  {
    if rest.result.Ok? {
      var u, args := rest.state, rest.result.value;
      forall i | 0 <= i < |deps|
        ensures Memoized(u, Target(u.typeMapping, deps[i]), ([v] + args)[i])
      {
        if i > 0 {
          assert deps[i] == deps[1..][i - 1];
        }
      }
    }
  }

  /** `instantiate`: look the class up, refuse an unknown or non-instantiable
      one, otherwise construct it with its parameters resolved in order. */
  function Instantiate(s: State, id: Id): (o: Outcome<Value>)
    requires Consistent(s) && id in s.entriesBeingResolved
    decreases PendingWithout(s, id), 1, 0
    ensures Consistent(o.state) && Evolves(s, o.state)
    ensures id !in s.classes ==> o == Outcome(Err(NotFound(id)), s)
    ensures id in s.classes && !s.classes[id].instantiable ==> o.result == Err(ContainerError(NotInstantiable(id)))
    ensures id in s.classes && s.classes[id].instantiable && s.classes[id].params == [] ==>
      o == Outcome(Ok(Instance(s.nextRef, id, [])),
                   s.(definitions := s.definitions[id := s.classes[id]], nextRef := s.nextRef + 1))
    ensures o.result.Ok? ==> Constructed(s, o, id)
  {
    var (reflection, defined) := GetDefinition(s, id);
    if reflection.None? then
      Outcome(Err(NotFound(id)), defined)
    else if !reflection.value.instantiable then
      Outcome(Err(ContainerError(NotInstantiable(id))), defined)
    else if reflection.value.params == [] then
      NewInstanceConstructs(s, defined, id, []);
      NewInstance(defined, id, [])
    else
      var args := ResolveParameters(defined, id, reflection.value.params);
      EvolvesTransitive(s, defined, args.state);
      if args.result.Err? then Outcome(Err(args.result.error), args.state)
      else
        NewInstanceConstructs(s, args.state, id, args.result.value);
        NewInstance(args.state, id, args.result.value)
  }

  /** The `array_map` of `resolveParameter` over a constructor's parameters,
      left to right, stopping at the first failure. */
  function ResolveParameters(s: State, owner: Id, params: seq<Param>): (o: Outcome<seq<Value>>)
    requires Consistent(s) && owner in s.entriesBeingResolved && owner in Universe(s)
    decreases PendingWithout(s, owner), 0, |params|
    ensures Consistent(o.state) && Evolves(s, o.state)
    ensures o.result.Ok? ==> SuppliesAll(o.state, params, o.result.value)
  {
    if params == [] then
      Outcome(Ok([]), s)
    else
      var first := ResolveParameter(s, owner, params[0]);
      if first.result.Err? then
        Outcome(Err(first.result.error), first.state)
      else
        var rest := ResolveParameters(first.state, owner, params[1..]);
        EvolvesTransitive(s, first.state, rest.state);
        SuppliesCons(first.state, params, first.result.value, rest);
        Cons(first.result.value, rest)
  }

  /** Evolving the state never takes back what a parameter was supplied. */
  lemma SuppliesKept(t: State, u: State, p: Param, v: Value)
    requires Evolves(t, u) && Supplies(t, p, v)
    ensures Supplies(u, p, v)
  {
  }

  /** One more resolved parameter in front of those already supplied. */
  lemma SuppliesCons(t: State, params: seq<Param>, v: Value, rest: Outcome<seq<Value>>)
    requires params != [] && Evolves(t, rest.state)
    requires Supplies(t, params[0], v)
    requires rest.result.Ok? ==> SuppliesAll(rest.state, params[1..], rest.result.value)
    ensures Cons(v, rest).result.Ok? ==> SuppliesAll(rest.state, params, Cons(v, rest).result.value)
  {
    if rest.result.Ok? {
      var u, args := rest.state, rest.result.value;
      forall i | 0 <= i < |params|
        ensures Supplies(u, params[i], ([v] + args)[i])
      {
        if i == 0 {
          SuppliesKept(t, u, params[0], v);
        } else {
          assert params[i] == params[1..][i - 1];
        }
      }
    }
  }

  /** `new` applied once the arguments are in hand is a construction of
      `id` and keeps the invariant. */
  lemma NewInstanceConstructs(s: State, t: State, id: Id, args: seq<Value>)
    requires id in s.classes && s.classes[id].instantiable
    requires Consistent(t) && Evolves(s, t)
    requires SuppliesAll(t, s.classes[id].params, args)
    ensures Consistent(NewInstance(t, id, args).state) && Evolves(s, NewInstance(t, id, args).state)
    ensures Constructed(s, NewInstance(t, id, args), id)
  {
    SuppliesAllAfterAllocation(t, s.classes[id].params, args, t.nextRef + 1);
  }

  /** Allocating a new object does not disturb what was supplied. */
  lemma SuppliesAllAfterAllocation(t: State, params: seq<Param>, args: seq<Value>, n: nat)
    requires SuppliesAll(t, params, args)
    ensures SuppliesAll(t.(nextRef := n), params, args)
  {
    forall i | 0 <= i < |params|
      ensures Supplies(t.(nextRef := n), params[i], args[i])
    {
    }
  }

  /** `resolveParameter`: a parameter of one named class type is resolved by
      `get`; otherwise its default is used if it has one; otherwise it fails. */
  function ResolveParameter(s: State, owner: Id, p: Param): (o: Outcome<Value>)
    requires Consistent(s) && owner in s.entriesBeingResolved && owner in Universe(s)
    decreases PendingWithout(s, owner), 0, 0
    ensures Consistent(o.state) && Evolves(s, o.state)
    ensures o.result.Ok? ==> Supplies(o.state, p, o.result.value)
    ensures p.classType.None? ==> o.state == s && (o.result.Ok? <==> p.defaultValue.Some?)
  {
    match p.classType
    case Some(c) =>
      PendingDrops(s, owner);
      Get(s, c)
    case None =>
      if p.defaultValue.Some? then Outcome(Ok(Default(p.defaultValue.value)), s)
      else Outcome(Err(ContainerError(UnresolvableParameter(p.name))), s)
  }

  /** `getDefinition`: the cached reflection of `id`, filling the cache on a
      successful lookup. The cache never changes the answer. */
  function GetDefinition(s: State, id: Id): (r: (Option<TypeDef>, State))
    requires Consistent(s)
    ensures r.0 == if id in s.classes then Some(s.classes[id]) else None
    ensures r.1 == if id in s.classes then s.(definitions := s.definitions[id := s.classes[id]]) else s
    ensures Consistent(r.1) && Evolves(s, r.1)
  {
    if id in s.definitions then
      assert s.definitions[id := s.classes[id]] == s.definitions;
      (Some(s.definitions[id]), s)
    else if id in s.classes then
      (Some(s.classes[id]), s.(definitions := s.definitions[id := s.classes[id]]))
    else
      (None, s)
  }

  /** `has`: a memo entry or a class reflection can find. It never fails and
      changes nothing but the definitions cache. */
  function Has(s: State, id: Id): (r: (bool, State))
    requires Consistent(s)
    ensures r.0 <==> id in s.resolvedEntries || id in s.classes
    ensures Consistent(r.1) && Evolves(s, r.1)
    ensures r.1.resolvedEntries == s.resolvedEntries && r.1.nextRef == s.nextRef
  {
    if id in s.resolvedEntries then
      (true, s)
    else
      var (reflection, defined) := GetDefinition(s, id);
      (reflection.Some?, defined)
  }

  /** The type-mapping entry `set` stores: a class name becomes an alias
      (any dependency list is ignored), a closure a factory whose dependency
      list defaults to empty. */
  function Registered(value: Registration, deps: Option<seq<Id>>): (m: Mapping) {
    match value
    case TypeName(name) => Alias(name)
    case Callable(closure) => Factory(FactoryDefinition(closure, if deps.Some? then deps.value else []))
  }

  /** `set`: refuse an id that is already resolved or already registered;
      otherwise add exactly one type-mapping entry. */
  function Set(s: State, id: Id, value: Registration, deps: Option<seq<Id>>): (o: Outcome<()>)
    requires Consistent(s)
    ensures o.result.Ok? <==> id !in s.resolvedEntries && id !in s.typeMapping
    ensures id in s.resolvedEntries ==> o == Outcome(Err(ContainerError(AlreadyResolved(id))), s)
    ensures id !in s.resolvedEntries && id in s.typeMapping ==> o == Outcome(Err(ContainerError(AlreadyRegistered(id))), s)
    ensures o.result.Ok? ==> o.state == s.(typeMapping := s.typeMapping[id := Registered(value, deps)])
    ensures Consistent(o.state)
  {
    if id in s.resolvedEntries then
      Outcome(Err(ContainerError(AlreadyResolved(id))), s)
    else if id in s.typeMapping then
      Outcome(Err(ContainerError(AlreadyRegistered(id))), s)
    else
      Outcome(Ok(()), s.(typeMapping := s.typeMapping[id := Registered(value, deps)]))
  }
}
