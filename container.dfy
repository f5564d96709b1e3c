/** The container itself (src/Container.php): a class whose fields are the
    four maps the source keeps, with methods that update them in place. Each
    method is proved to compute the corresponding function of `Semantics`
    from the state it starts in; the lemmas before the class carry the steps
    of those proofs. */
module DI {
  import opened FactoryDefinitions
  import opened Model
  import Semantics

  /** Arguments collected so far in front of what the rest of a left-to-right
      resolution yields; a failure passes through. */
  function Prepend(done: seq<Value>, o: Outcome<seq<Value>>): (r: Outcome<seq<Value>>) {
    if o.result.Ok? then Outcome(Ok(done + o.result.value), o.state) else o
  }

  lemma PrependNothing(o: Outcome<seq<Value>>)
    ensures Prepend([], o) == o
  {
    if o.result.Ok? {
      assert [] + o.result.value == o.result.value;
    }
  }

  lemma PrependCons(done: seq<Value>, v: Value, rest: Outcome<seq<Value>>)
    ensures Prepend(done, Semantics.Cons(v, rest)) == Prepend(done + [v], rest)
  {
    if rest.result.Ok? {
      assert done + ([v] + rest.result.value) == (done + [v]) + rest.result.value;
    }
  }

  /** Marking an id in flight keeps the invariant and, measured without that
      id, the termination measure. */
  lemma MarkKeepsConsistent(s: State, key: Id)
    requires Consistent(s) && key !in s.entriesBeingResolved
    ensures Consistent(s.(entriesBeingResolved := s.entriesBeingResolved + {key}))
    ensures PendingWithout(s.(entriesBeingResolved := s.entriesBeingResolved + {key}), key) == Pending(s)
  {
    MarkedPending(s, key);
  }

  /** The memo write and the `finally` at the end of `get` leave the state
      `Semantics.Get` describes. */
  lemma GetFinishes(s: State, id: Id, key: Id, typeFactory: Option<FactoryDefinition>,
                    marked: State, value: Result<Value>, after: State, t: State)
    requires Consistent(s)
    requires key == Target(s.typeMapping, id) && typeFactory == FactoryFor(s.typeMapping, id)
    requires key !in s.resolvedEntries && key !in s.entriesBeingResolved
    requires marked == s.(entriesBeingResolved := s.entriesBeingResolved + {key})
    requires Consistent(marked)
    requires typeFactory.Some? ==> Outcome(value, after) == Semantics.InstantiateFromFactory(marked, key, typeFactory.value)
    requires typeFactory.None? ==> Outcome(value, after) == Semantics.Instantiate(marked, key)
    requires t == after.(
        resolvedEntries := if value.Ok? then after.resolvedEntries[key := value.value] else after.resolvedEntries,
        entriesBeingResolved := after.entriesBeingResolved - {key})
    ensures Semantics.Get(s, id) == Outcome(value, t)
    ensures Consistent(t)
  {
  }

  /** How `instantiate` ends once the constructor's parameters have been
      resolved: `new` with the arguments, or the failure passed on. */
  lemma InstantiateFinishes(s: State, id: Id, defined: State, resolved: Outcome<seq<Value>>)
    requires Consistent(s) && id in s.entriesBeingResolved
    requires id in s.classes && s.classes[id].instantiable && s.classes[id].params != []
    requires defined == Semantics.GetDefinition(s, id).1
    requires resolved == Semantics.ResolveParameters(defined, id, s.classes[id].params)
    ensures Semantics.Instantiate(s, id) ==
      if resolved.result.Ok? then Semantics.NewInstance(resolved.state, id, resolved.result.value)
      else Outcome(Err(resolved.result.error), resolved.state)
  {
  }

  /** One turn of the loop over a constructor's parameters. */
  lemma ParametersStep(start: State, before: State, after: State, owner: Id, params: seq<Param>,
                       i: nat, args: seq<Value>, arg: Result<Value>)
    requires Consistent(start) && owner in start.entriesBeingResolved && owner in Universe(start)
    requires Consistent(before) && Evolves(start, before) && i < |params|
    requires Prepend(args, Semantics.ResolveParameters(before, owner, params[i..]))
          == Semantics.ResolveParameters(start, owner, params)
    requires Outcome(arg, after) == Semantics.ResolveParameter(before, owner, params[i])
    ensures Consistent(after) && Evolves(start, after)
    ensures arg.Err? ==> Semantics.ResolveParameters(start, owner, params) == Outcome(Err(arg.error), after)
    ensures arg.Ok? ==>
      Prepend(args + [arg.value], Semantics.ResolveParameters(after, owner, params[i + 1..]))
        == Semantics.ResolveParameters(start, owner, params)
  {
    assert params[i..][0] == params[i] && params[i..][1..] == params[i + 1..];
    Semantics.EvolvesTransitive(start, before, after);
    if arg.Ok? {
      PrependCons(args, arg.value, Semantics.ResolveParameters(after, owner, params[i + 1..]));
    }
  }

  /** One turn of the loop over a factory's dependencies. */
  lemma DependenciesStep(start: State, before: State, after: State, owner: Id, deps: seq<Id>,
                         i: nat, args: seq<Value>, arg: Result<Value>)
    requires Consistent(start) && owner in start.entriesBeingResolved && owner in Universe(start)
    requires Consistent(before) && Evolves(start, before) && i < |deps|
    requires Prepend(args, Semantics.ResolveDependencies(before, owner, deps[i..]))
          == Semantics.ResolveDependencies(start, owner, deps)
    requires Outcome(arg, after) == Semantics.Get(before, deps[i])
    ensures Consistent(after) && Evolves(start, after)
    ensures arg.Err? ==> Semantics.ResolveDependencies(start, owner, deps) == Outcome(Err(arg.error), after)
    ensures arg.Ok? ==>
      Prepend(args + [arg.value], Semantics.ResolveDependencies(after, owner, deps[i + 1..]))
        == Semantics.ResolveDependencies(start, owner, deps)
  {
    assert deps[i..][0] == deps[i] && deps[i..][1..] == deps[i + 1..];
    Semantics.EvolvesTransitive(start, before, after);
    if arg.Ok? {
      PrependCons(args, arg.value, Semantics.ResolveDependencies(after, owner, deps[i + 1..]));
    }
  }

  /** After the last turn the loop has collected what the function yields. */
  lemma ParametersDone(start: State, t: State, owner: Id, params: seq<Param>, args: seq<Value>)
    requires Consistent(start) && owner in start.entriesBeingResolved && owner in Universe(start)
    requires Consistent(t) && Evolves(start, t)
    requires Prepend(args, Semantics.ResolveParameters(t, owner, params[|params|..]))
          == Semantics.ResolveParameters(start, owner, params)
    ensures Semantics.ResolveParameters(start, owner, params) == Outcome(Ok(args), t)
  {
    assert params[|params|..] == [] && args + [] == args;
  }

  lemma DependenciesDone(start: State, t: State, owner: Id, deps: seq<Id>, args: seq<Value>)
    requires Consistent(start) && owner in start.entriesBeingResolved && owner in Universe(start)
    requires Consistent(t) && Evolves(start, t)
    requires Prepend(args, Semantics.ResolveDependencies(t, owner, deps[|deps|..]))
          == Semantics.ResolveDependencies(start, owner, deps)
    ensures Semantics.ResolveDependencies(start, owner, deps) == Outcome(Ok(args), t)
  {
    assert deps[|deps|..] == [] && args + [] == args;
  }

  class Container {
    /** The classes reflection can load; fixed for the container's life. */
    const classes: map<Id, TypeDef>
    /** Entries already resolved by `Get`, by (rewritten) id. */
    var resolvedEntries: map<Id, Value>
    /** Reflected class definitions looked up so far. */
    var definitions: map<Id, TypeDef>
    /** Ids whose resolution is on the current call stack. */
    var entriesBeingResolved: set<Id>
    /** Aliases and factories registered by `Set`. */
    var typeMapping: map<Id, Mapping>
    /** The token the next constructed object receives. */
    var nextRef: nat

    /** The container's fields as one state value. */
    function Abs(): (s: State)
      reads this
    {
      State(classes, resolvedEntries, definitions, entriesBeingResolved, typeMapping, nextRef)
    }

    ghost predicate Valid()
      reads this
    {
      Consistent(Abs())
    }

    /** A new container has resolved, reflected, registered nothing. */
    constructor (classes: map<Id, TypeDef>)
      ensures Valid()
      ensures Abs() == State(classes, map[], map[], {}, map[], 0)
    {
      this.classes := classes;
      resolvedEntries := map[];
      definitions := map[];
      entriesBeingResolved := {};
      typeMapping := map[];
      nextRef := 0;
    }

    method Get(id: Id) returns (r: Result<Value>)
      requires Valid()
      modifies this
      decreases Pending(Abs()), 3, 0
      ensures Valid()
      ensures Outcome(r, Abs()) == Semantics.Get(old(Abs()), id)
    {
      var key := Target(typeMapping, id);
      var typeFactory := FactoryFor(typeMapping, id);
      if key in resolvedEntries {
        return Ok(resolvedEntries[key]);
      }
      if key in entriesBeingResolved {
        return Err(ContainerError(CircularDependency(key)));
      }
      r := Build(id, key, typeFactory);
    }

    /** The `try`/`finally` of `get`: with `key` marked in flight, build the
        entry by its factory or by reflection, memoize it, unmark `key`. */
    method Build(ghost id: Id, key: Id, typeFactory: Option<FactoryDefinition>) returns (r: Result<Value>)
      requires Valid()
      requires key == Target(typeMapping, id) && typeFactory == FactoryFor(typeMapping, id)
      requires key !in resolvedEntries && key !in entriesBeingResolved
      modifies this
      decreases Pending(Abs()), 2, 0
      ensures Valid()
      ensures Outcome(r, Abs()) == Semantics.Get(old(Abs()), id)
    {
      ghost var s0 := Abs();
      MarkKeepsConsistent(s0, key);
      entriesBeingResolved := entriesBeingResolved + {key};
      ghost var marked := Abs();
      if typeFactory.Some? {
        r := InstantiateFromFactory(key, typeFactory.value);
      } else {
        r := Instantiate(key);
      }
      ghost var after := Abs();
      Release(key, r);
      GetFinishes(s0, id, key, typeFactory, marked, r, after, Abs());
    }

    /** The end of `get`: memoize a value that was built, and (the `finally`)
        take `key` out of the in-flight set. */
    method Release(key: Id, value: Result<Value>)
      modifies this
      ensures Abs() == old(Abs()).(
        resolvedEntries := if value.Ok? then old(resolvedEntries)[key := value.value] else old(resolvedEntries),
        entriesBeingResolved := old(entriesBeingResolved) - {key})
    {
      if value.Ok? {
        resolvedEntries := resolvedEntries[key := value.value];
      }
      entriesBeingResolved := entriesBeingResolved - {key};
    }

    method Has(id: Id) returns (b: bool)
      requires Valid()
      modifies this
      ensures Valid()
      ensures (b, Abs()) == Semantics.Has(old(Abs()), id)
    {
      if id in resolvedEntries {
        return true;
      }
      var reflection := GetDefinition(id);
      b := reflection.Some?;
    }

    method Set(id: Id, value: Registration, deps: Option<seq<Id>>) returns (r: Result<()>)
      requires Valid()
      modifies this
      ensures Valid()
      ensures Outcome(r, Abs()) == Semantics.Set(old(Abs()), id, value, deps)
    {
      if id in resolvedEntries {
        return Err(ContainerError(AlreadyResolved(id)));
      }
      if id in typeMapping {
        return Err(ContainerError(AlreadyRegistered(id)));
      }
      match value {
        case TypeName(name) =>
          typeMapping := typeMapping[id := Alias(name)];
        case Callable(closure) =>
          typeMapping := typeMapping[id := Factory(FactoryDefinition(closure, if deps.Some? then deps.value else []))];
      }
      r := Ok(());
    }

    method InstantiateFromFactory(id: Id, typeFactory: FactoryDefinition) returns (r: Result<Value>)
      requires Valid() && id in entriesBeingResolved && id in typeMapping
      modifies this
      decreases PendingWithout(Abs(), id), 1, 0
      ensures Valid()
      ensures Outcome(r, Abs()) == Semantics.InstantiateFromFactory(old(Abs()), id, typeFactory)
    {
      var args := ResolveDependencies(id, typeFactory.GetDependencies());
      if args.Err? {
        return Err(args.error);
      }
      var factory := typeFactory.GetFactory();
      if |args.value| < factory.required {
        return Err(ContainerError(TooFewArguments(id)));
      }
      if !factory.returnsObject {
        return Err(ReturnTypeError(id));
      }
      r := Ok(Produced(factory, args.value));
    }

    /** The `array_map` of `get` over a factory's dependencies. */
    method ResolveDependencies(ghost owner: Id, deps: seq<Id>) returns (r: Result<seq<Value>>)
      requires Valid() && owner in entriesBeingResolved && owner in Universe(Abs())
      modifies this
      decreases PendingWithout(Abs(), owner), 0, |deps|
      ensures Valid()
      ensures Outcome(r, Abs()) == Semantics.ResolveDependencies(old(Abs()), owner, deps)
    {
      var args: seq<Value> := [];
      var i := 0;
      ghost var start := Abs();
      assert deps[i..] == deps;
      PrependNothing(Semantics.ResolveDependencies(start, owner, deps));
      while i < |deps|
        invariant 0 <= i <= |deps|
        invariant Consistent(Abs()) && Evolves(start, Abs())
        invariant Prepend(args, Semantics.ResolveDependencies(Abs(), owner, deps[i..]))
               == Semantics.ResolveDependencies(start, owner, deps)
      {
        PendingDrops(Abs(), owner);
        ghost var before := Abs();
        var arg := Get(deps[i]);
        DependenciesStep(start, before, Abs(), owner, deps, i, args, arg);
        if arg.Err? {
          return Err(arg.error);
        }
        args := args + [arg.value];
        i := i + 1;
      }
      DependenciesDone(start, Abs(), owner, deps, args);
      r := Ok(args);
    }

    method Instantiate(id: Id) returns (r: Result<Value>)
      requires Valid() && id in entriesBeingResolved
      modifies this
      decreases PendingWithout(Abs(), id), 1, 0
      ensures Valid()
      ensures Outcome(r, Abs()) == Semantics.Instantiate(old(Abs()), id)
    {
      ghost var s0 := Abs();
      var reflection := GetDefinition(id);
      if reflection.None? {
        return Err(NotFound(id));
      }
      if !reflection.value.instantiable {
        return Err(ContainerError(NotInstantiable(id)));
      }
      var params := reflection.value.params;
      if params == [] {
        var v := NewInstance(id, []);
        return Ok(v);
      }
      ghost var defined := Abs();
      var args := ResolveParameters(id, params);
      InstantiateFinishes(s0, id, defined, Outcome(args, Abs()));
      if args.Err? {
        return Err(args.error);
      }
      var v := NewInstance(id, args.value);
      r := Ok(v);
    }

    /** The `array_map` of `resolveParameter` over a constructor's parameters. */
    method ResolveParameters(ghost owner: Id, params: seq<Param>) returns (r: Result<seq<Value>>)
      requires Valid() && owner in entriesBeingResolved && owner in Universe(Abs())
      modifies this
      decreases PendingWithout(Abs(), owner), 0, |params|
      ensures Valid()
      ensures Outcome(r, Abs()) == Semantics.ResolveParameters(old(Abs()), owner, params)
    {
      var args: seq<Value> := [];
      var i := 0;
      ghost var start := Abs();
      assert params[i..] == params;
      PrependNothing(Semantics.ResolveParameters(start, owner, params));
      while i < |params|
        invariant 0 <= i <= |params|
        invariant Consistent(Abs()) && Evolves(start, Abs())
        invariant Prepend(args, Semantics.ResolveParameters(Abs(), owner, params[i..]))
               == Semantics.ResolveParameters(start, owner, params)
      {
        ghost var before := Abs();
        var arg := ResolveParameter(owner, params[i]);
        ParametersStep(start, before, Abs(), owner, params, i, args, arg);
        if arg.Err? {
          return Err(arg.error);
        }
        args := args + [arg.value];
        i := i + 1;
      }
      ParametersDone(start, Abs(), owner, params, args);
      r := Ok(args);
    }

    /** `new $id(...$args)`: an object that takes the next token. */
    method NewInstance(cls: Id, args: seq<Value>) returns (v: Value)
      modifies this
      ensures Outcome(Ok(v), Abs()) == Semantics.NewInstance(old(Abs()), cls, args)
    {
      v := Instance(nextRef, cls, args);
      nextRef := nextRef + 1;
    }

    method GetDefinition(id: Id) returns (reflection: Option<TypeDef>)
      requires Valid()
      modifies this
      ensures Valid()
      ensures (reflection, Abs()) == Semantics.GetDefinition(old(Abs()), id)
    {
      if id in definitions {
        return Some(definitions[id]);
      }
      if id in classes {
        reflection := Some(classes[id]);
        definitions := definitions[id := classes[id]];
        return;
      }
      reflection := None;
    }

    method ResolveParameter(ghost owner: Id, p: Param) returns (r: Result<Value>)
      requires Valid() && owner in entriesBeingResolved && owner in Universe(Abs())
      modifies this
      decreases PendingWithout(Abs(), owner), 0, 0
      ensures Valid()
      ensures Outcome(r, Abs()) == Semantics.ResolveParameter(old(Abs()), owner, p)
    {
      match p.classType
      case Some(typeName) =>
        PendingDrops(Abs(), owner);
        r := Get(typeName);
      case None =>
        if p.defaultValue.Some? {
          r := Ok(Default(p.defaultValue.value));
        } else {
          r := Err(ContainerError(UnresolvableParameter(p.name)));
        }
    }
  }
}
