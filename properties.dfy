/** What the container promises across calls: memoization, the one-step
    alias rewrite, cycle refusal, the registration guards, what `has` does
    and does not tell, and how constructed and produced entries look. */
module Properties {
  import opened FactoryDefinitions
  import opened Model
  import Semantics

  /** A memo hit answers from the memo and changes nothing. */
  lemma MemoHit(s: State, id: Id)
    requires Consistent(s) && Target(s.typeMapping, id) in s.resolvedEntries
    ensures Semantics.Get(s, id) == Outcome(Ok(s.resolvedEntries[Target(s.typeMapping, id)]), s)
  {
  }

  /** Asking again for an entry that was obtained gives the same value and
      leaves the state as it is: nothing is built a second time. */
  lemma GetTwice(s: State, id: Id)
    requires Consistent(s) && Semantics.Get(s, id).result.Ok?
    ensures Semantics.Get(Semantics.Get(s, id).state, id) == Semantics.Get(s, id)
  {
  }

  /** Once obtained, an entry is what `get` answers in every later state
      that other `get` and `has` calls lead to. */
  lemma ResolvedForever(s: State, id: Id, t: State)
    requires Consistent(s) && Semantics.Get(s, id).result.Ok?
    requires Consistent(t) && Evolves(Semantics.Get(s, id).state, t)
    ensures Semantics.Get(t, id) == Outcome(Semantics.Get(s, id).result, t)
  {
    var o := Semantics.Get(s, id);
    var key := Target(s.typeMapping, id);
    assert Memoized(o.state, key, o.result.value);
    assert Target(t.typeMapping, id) == key;
    assert Memoized(t, key, o.result.value);
  }

  /** A successful `set` never redirects an id whose entry is resolved. */
  lemma ResolvedSurvivesSet(s: State, id: Id, other: Id, value: Registration, deps: Option<seq<Id>>)
    requires Consistent(s) && Target(s.typeMapping, id) in s.resolvedEntries
    ensures var o := Semantics.Set(s, other, value, deps);
      Semantics.Get(o.state, id) == Outcome(Ok(s.resolvedEntries[Target(s.typeMapping, id)]), o.state)
  {
    var o := Semantics.Set(s, other, value, deps);
    if o.result.Ok? {
      assert Target(o.state.typeMapping, id) == Target(s.typeMapping, id);
    }
  }

  /** An alias and a target that is not itself an alias share one entry:
      after `get(alias)`, `get(target)` returns the same object. */
  lemma AliasThenTarget(s: State, alias: Id, target: Id)
    requires Consistent(s)
    requires alias in s.typeMapping && s.typeMapping[alias] == Alias(target)
    requires Target(s.typeMapping, target) == target
    requires Semantics.Get(s, alias).result.Ok?
    ensures Semantics.Get(Semantics.Get(s, alias).state, target) == Semantics.Get(s, alias)
  {
  }

  /** The same in the other order: after `get(target)`, `get(alias)`
      returns the same object. */
  lemma TargetThenAlias(s: State, alias: Id, target: Id)
    requires Consistent(s)
    requires alias in s.typeMapping && s.typeMapping[alias] == Alias(target)
    requires Target(s.typeMapping, target) == target
    requires Semantics.Get(s, target).result.Ok?
    ensures Semantics.Get(Semantics.Get(s, target).state, alias) == Semantics.Get(s, target)
  {
  }

  /** An alias is followed one step only: whatever the target is mapped to,
      a target that is not a class is not found, and nothing changes. */
  lemma AliasFollowedOnce(s: State, alias: Id, target: Id)
    requires Consistent(s)
    requires alias in s.typeMapping && s.typeMapping[alias] == Alias(target)
    requires target !in s.resolvedEntries && target !in s.entriesBeingResolved && target !in s.classes
    ensures Semantics.Get(s, alias) == Outcome(Err(NotFound(target)), s)
  {
    var marked := s.(entriesBeingResolved := s.entriesBeingResolved + {target});
    assert Semantics.Instantiate(marked, target) == Outcome(Err(NotFound(target)), marked);
    assert marked.(entriesBeingResolved := marked.entriesBeingResolved - {target}) == s;
  }

  /** An id in flight is refused as a cycle, and nothing changes. */
  lemma CycleRefused(s: State, id: Id)
    requires Consistent(s)
    requires Target(s.typeMapping, id) !in s.resolvedEntries && Target(s.typeMapping, id) in s.entriesBeingResolved
    ensures Semantics.Get(s, id) == Outcome(Err(ContainerError(CircularDependency(Target(s.typeMapping, id)))), s)
  {
  }

  /** A class whose first constructor parameter is of its own type cannot be
      built: the inner `get` finds it in flight. Only its reflection is
      cached, and nothing is memoized. */
  lemma SelfDependentClassFails(s: State, c: Id)
    requires Consistent(s)
    requires c !in s.typeMapping && c !in s.resolvedEntries && c !in s.entriesBeingResolved
    requires c in s.classes && s.classes[c].instantiable
    requires s.classes[c].params != [] && s.classes[c].params[0].classType == Some(c)
    ensures Semantics.Get(s, c) ==
      Outcome(Err(ContainerError(CircularDependency(c))), s.(definitions := s.definitions[c := s.classes[c]]))
  {
    var marked := s.(entriesBeingResolved := s.entriesBeingResolved + {c});
    var defined := marked.(definitions := marked.definitions[c := s.classes[c]]);
    var params := s.classes[c].params;
    var cycle := Outcome(Err(ContainerError(CircularDependency(c))), defined);
    assert Semantics.GetDefinition(marked, c) == (Some(s.classes[c]), defined);
    assert Semantics.Get(defined, c) == cycle;
    assert Semantics.ResolveParameter(defined, c, params[0]) == cycle;
    assert Semantics.ResolveParameters(defined, c, params) == Outcome(Err(cycle.result.error), defined);
    assert Semantics.Instantiate(marked, c) == cycle;
    assert defined.(entriesBeingResolved := defined.entriesBeingResolved - {c})
        == s.(definitions := s.definitions[c := s.classes[c]]);
  }

  /** Building by reflection yields a new object of the class, distinct from
      every entry memoized before. */
  lemma ReflectionBuildsFreshObject(s: State, id: Id)
    requires Consistent(s)
    requires FactoryFor(s.typeMapping, id).None? && Target(s.typeMapping, id) !in s.resolvedEntries
    requires Semantics.Get(s, id).result.Ok?
    ensures var v := Semantics.Get(s, id).result.value;
      && v.Instance? && v.cls == Target(s.typeMapping, id) && s.nextRef <= v.ref
      && forall k :: k in s.resolvedEntries ==> s.resolvedEntries[k] != v
  {
    var key := Target(s.typeMapping, id);
    var marked := s.(entriesBeingResolved := s.entriesBeingResolved + {key});
    var built := Semantics.Instantiate(marked, key);
    assert Semantics.Get(s, id).result == built.result;
    assert Semantics.Constructed(marked, built, key);
    forall k | k in s.resolvedEntries
      ensures s.resolvedEntries[k] != built.result.value
    {
      assert Allocated(s.resolvedEntries[k], s.nextRef);
    }
  }

  /** Memo entries a later state keeps carry over what was injected. */
  lemma InjectedKept(t: State, u: State, deps: seq<Id>, args: seq<Value>)
    requires Semantics.Injected(t, deps, args) && u.typeMapping == t.typeMapping
    requires forall k :: k in t.resolvedEntries ==> Memoized(u, k, t.resolvedEntries[k])
    ensures Semantics.Injected(u, deps, args)
  {
    forall i | 0 <= i < |deps|
      ensures Memoized(u, Target(u.typeMapping, deps[i]), args[i])
    {
      assert Memoized(t, Target(t.typeMapping, deps[i]), args[i]);
    }
  }

  /** An entry produced by a factory is the closure's result on exactly the
      entries of its dependencies, in order; the closure accepts that many
      arguments and returns an object. */
  lemma FactoryReceivesDependencies(s: State, id: Id)
    requires Consistent(s)
    requires FactoryFor(s.typeMapping, id).Some?
    requires id !in s.resolvedEntries && id !in s.entriesBeingResolved
    requires Semantics.Get(s, id).result.Ok?
    ensures var f := FactoryFor(s.typeMapping, id).value; var o := Semantics.Get(s, id);
      && o.result.value == Produced(f.GetFactory(), o.result.value.args)
      && f.GetFactory().required <= |f.GetDependencies()|
      && f.GetFactory().returnsObject
      && Semantics.Injected(o.state, f.GetDependencies(), o.result.value.args)
  {
    var f := FactoryFor(s.typeMapping, id).value;
    var marked := s.(entriesBeingResolved := s.entriesBeingResolved + {id});
    var built := Semantics.InstantiateFromFactory(marked, id, f);
    var o := Semantics.Get(s, id);
    assert o == Semantics.Release(s, id, built);
    assert id !in built.state.resolvedEntries;
    InjectedKept(built.state, o.state, f.GetDependencies(), o.result.value.args);
  }

  /** A factory registered without dependencies is called with no
      arguments: it fails if it requires any, fails if it returns no
      object, and otherwise its result is memoized under the id. */
  lemma FactoryWithoutDependencies(s: State, id: Id, f: Closure)
    requires Consistent(s)
    requires id in s.typeMapping && s.typeMapping[id] == Factory(FactoryDefinition(f))
    requires id !in s.resolvedEntries && id !in s.entriesBeingResolved
    ensures Semantics.Get(s, id) ==
      if 0 < f.required then Outcome(Err(ContainerError(TooFewArguments(id))), s)
      else if !f.returnsObject then Outcome(Err(ReturnTypeError(id)), s)
      else Outcome(Ok(Produced(f, [])), s.(resolvedEntries := s.resolvedEntries[id := Produced(f, [])]))
  {
    var marked := s.(entriesBeingResolved := s.entriesBeingResolved + {id});
    assert Semantics.ResolveDependencies(marked, id, []) == Outcome(Ok([]), marked);
    assert (s.entriesBeingResolved + {id}) - {id} == s.entriesBeingResolved;
  }

  /** `set` refuses an id that `get` has answered, whether it was resolved
      under its own name or is itself registered. */
  lemma NoSetAfterGet(s: State, id: Id, value: Registration, deps: Option<seq<Id>>)
    requires Consistent(s) && Semantics.Get(s, id).result.Ok?
    ensures Semantics.Set(Semantics.Get(s, id).state, id, value, deps).result.Err?
  {
  }

  /** A second registration of an id is refused as already registered. */
  lemma NoSetTwice(s: State, id: Id, first: Registration, second: Registration, deps: Option<seq<Id>>, deps2: Option<seq<Id>>)
    requires Consistent(s) && Semantics.Set(s, id, first, deps).result.Ok?
    ensures var t := Semantics.Set(s, id, first, deps).state;
      Semantics.Set(t, id, second, deps2) == Outcome(Err(ContainerError(AlreadyRegistered(id))), t)
  {
  }

  /** `has` does not look at the type mapping: registering anything changes
      no answer of `has`. */
  lemma HasIgnoresTypeMapping(s: State, id: Id, typeMapping: map<Id, Mapping>)
    requires Consistent(s)
    ensures Semantics.Has(s.(typeMapping := typeMapping), id).0 == Semantics.Has(s, id).0
  {
  }

  /** `has` answering true does not mean `get` succeeds: an interface is
      known to reflection but cannot be instantiated. */
  lemma HasButNotInstantiable(s: State, id: Id)
    requires Consistent(s)
    requires id !in s.typeMapping && id !in s.resolvedEntries && id !in s.entriesBeingResolved
    requires id in s.classes && !s.classes[id].instantiable
    ensures Semantics.Has(s, id).0
    ensures Semantics.Get(s, id).result == Err(ContainerError(NotInstantiable(id)))
  {
  }

  /** Nor does it rule out `NotFoundException`: a class whose constructor
      needs an unknown class is reported by `has`, and `get` fails with the
      dependency's `NotFoundException`. */
  lemma DependencyNotFoundPropagates(s: State, c: Id, missing: Id)
    requires Consistent(s)
    requires c !in s.typeMapping && c !in s.resolvedEntries && c !in s.entriesBeingResolved
    requires c in s.classes && s.classes[c].instantiable
    requires s.classes[c].params != [] && s.classes[c].params[0].classType == Some(missing)
    requires missing !in s.typeMapping && missing !in s.resolvedEntries && missing !in s.entriesBeingResolved
    requires missing !in s.classes
    ensures Semantics.Has(s, c).0
    ensures Semantics.Get(s, c).result == Err(NotFound(missing))
  {
    var marked := s.(entriesBeingResolved := s.entriesBeingResolved + {c});
    var defined := marked.(definitions := marked.definitions[c := s.classes[c]]);
    var params := s.classes[c].params;
    var notFound := Outcome(Err(NotFound(missing)), defined);
    assert Semantics.GetDefinition(marked, c) == (Some(s.classes[c]), defined);
    MissingIsNotFound(defined, missing);
    assert Semantics.ResolveParameter(defined, c, params[0]) == notFound;
    assert Semantics.ResolveParameters(defined, c, params) == Outcome(Err(NotFound(missing)), defined);
    assert Semantics.Instantiate(marked, c) == notFound;
  }

  /** Nor for an alias: a class that reflection finds but that is mapped to a
      name no class has is reported by `has`, while `get` follows the mapping
      and fails with the target's `NotFoundException`, changing nothing. */
  lemma HasButAliasMissing(s: State, c: Id, missing: Id)
    requires Consistent(s)
    requires c in s.classes && c in s.typeMapping && s.typeMapping[c] == Alias(missing)
    requires missing !in s.resolvedEntries && missing !in s.entriesBeingResolved && missing !in s.classes
    ensures Semantics.Has(s, c).0
    ensures Semantics.Get(s, c) == Outcome(Err(NotFound(missing)), s)
  {
    AliasFollowedOnce(s, c, missing);
  }

  /** `get` of an id that is neither mapped, memoized nor a class fails
      with `NotFoundException` and changes nothing. */
  lemma MissingIsNotFound(s: State, id: Id)
    requires Consistent(s)
    requires id !in s.typeMapping && id !in s.resolvedEntries && id !in s.entriesBeingResolved
    requires id !in s.classes
    ensures Semantics.Get(s, id) == Outcome(Err(NotFound(id)), s)
  {
    var marked := s.(entriesBeingResolved := s.entriesBeingResolved + {id});
    assert Semantics.Instantiate(marked, id) == Outcome(Err(NotFound(id)), marked);
    assert marked.(entriesBeingResolved := marked.entriesBeingResolved - {id}) == s;
  }

  /** Looking a definition up again answers the same and changes nothing. */
  lemma GetDefinitionCached(s: State, id: Id)
    requires Consistent(s)
    ensures var (reflection, t) := Semantics.GetDefinition(s, id);
      Semantics.GetDefinition(t, id) == (reflection, t)
  {
  }

  /** Building by reflection a class whose one parameter takes its default:
      a new object with that default, memoized under the rewritten id. */
  lemma BuildWithDefault(s: State, id: Id)
    requires Consistent(s)
    requires FactoryFor(s.typeMapping, id).None?
    requires Target(s.typeMapping, id) !in s.resolvedEntries && Target(s.typeMapping, id) !in s.entriesBeingResolved
    requires Target(s.typeMapping, id) in s.classes && s.classes[Target(s.typeMapping, id)].instantiable
    requires |s.classes[Target(s.typeMapping, id)].params| == 1
    requires s.classes[Target(s.typeMapping, id)].params[0].classType.None?
    requires s.classes[Target(s.typeMapping, id)].params[0].defaultValue.Some?
    ensures var key := Target(s.typeMapping, id);
      var v := Instance(s.nextRef, key, [Default(s.classes[key].params[0].defaultValue.value)]);
      Semantics.Get(s, id) == Outcome(Ok(v), s.(
        resolvedEntries := s.resolvedEntries[key := v],
        definitions := s.definitions[key := s.classes[key]],
        nextRef := s.nextRef + 1))
  {
    var key := Target(s.typeMapping, id);
    var params := s.classes[key].params;
    var marked := s.(entriesBeingResolved := s.entriesBeingResolved + {key});
    var defined := marked.(definitions := s.definitions[key := s.classes[key]]);
    var arg := Default(params[0].defaultValue.value);
    assert Semantics.ResolveParameter(defined, key, params[0]) == Outcome(Ok(arg), defined);
    assert params[1..] == [] && [arg] + [] == [arg];
    assert Semantics.ResolveParameters(defined, key, params[1..]) == Outcome(Ok([]), defined);
    assert Semantics.ResolveParameters(defined, key, params) == Outcome(Ok([arg]), defined);
    assert Semantics.Instantiate(marked, key) == Semantics.NewInstance(defined, key, [arg]);
    assert (s.entriesBeingResolved + {key}) - {key} == s.entriesBeingResolved;
  }

  /** Building by reflection a class whose one parameter is of a class type:
      the entry of that type is obtained first, with the class marked in
      flight, and becomes the argument; its failure is the class's failure. */
  lemma BuildWithOneDependency(s: State, id: Id)
    requires Consistent(s)
    requires FactoryFor(s.typeMapping, id).None?
    requires Target(s.typeMapping, id) !in s.resolvedEntries && Target(s.typeMapping, id) !in s.entriesBeingResolved
    requires Target(s.typeMapping, id) in s.classes && s.classes[Target(s.typeMapping, id)].instantiable
    requires |s.classes[Target(s.typeMapping, id)].params| == 1
    requires s.classes[Target(s.typeMapping, id)].params[0].classType.Some?
    ensures var key := Target(s.typeMapping, id);
      var defined := s.(entriesBeingResolved := s.entriesBeingResolved + {key},
                        definitions := s.definitions[key := s.classes[key]]);
      var inner := Semantics.Get(defined, s.classes[key].params[0].classType.value);
      && (inner.result.Err? ==>
            Semantics.Get(s, id) == Outcome(Err(inner.result.error), inner.state.(entriesBeingResolved := s.entriesBeingResolved)))
      && (inner.result.Ok? ==>
            var v := Instance(inner.state.nextRef, key, [inner.result.value]);
            Semantics.Get(s, id) == Outcome(Ok(v), inner.state.(
              resolvedEntries := inner.state.resolvedEntries[key := v],
              entriesBeingResolved := s.entriesBeingResolved,
              nextRef := inner.state.nextRef + 1)))
  {
    var key := Target(s.typeMapping, id);
    var marked := s.(entriesBeingResolved := s.entriesBeingResolved + {key});
    InstantiateWithOneDependency(marked, key);
    assert (s.entriesBeingResolved + {key}) - {key} == s.entriesBeingResolved;
  }

  /** The `instantiate` step of `BuildWithOneDependency`. */
  lemma InstantiateWithOneDependency(marked: State, key: Id)
    requires Consistent(marked) && key in marked.entriesBeingResolved
    requires key in marked.classes && marked.classes[key].instantiable
    requires |marked.classes[key].params| == 1 && marked.classes[key].params[0].classType.Some?
    ensures var defined := marked.(definitions := marked.definitions[key := marked.classes[key]]);
      var inner := Semantics.Get(defined, marked.classes[key].params[0].classType.value);
      Semantics.Instantiate(marked, key) ==
        if inner.result.Err? then Outcome(Err(inner.result.error), inner.state)
        else Semantics.NewInstance(inner.state, key, [inner.result.value])
  {
    var params := marked.classes[key].params;
    var defined := marked.(definitions := marked.definitions[key := marked.classes[key]]);
    assert params == [params[0]];
    SingleParameter(defined, key, params[0]);
  }

  /** Resolving a one-parameter list is resolving that parameter. */
  lemma SingleParameter(t: State, owner: Id, p: Param)
    requires Consistent(t) && owner in t.entriesBeingResolved && owner in Universe(t)
    ensures var first := Semantics.ResolveParameter(t, owner, p);
      Semantics.ResolveParameters(t, owner, [p]) ==
        if first.result.Err? then Outcome(Err(first.result.error), first.state)
        else Outcome(Ok([first.result.value]), first.state)
  {
    var first := Semantics.ResolveParameter(t, owner, p);
    assert [p][1..] == [];
    if first.result.Ok? {
      assert [first.result.value] + [] == [first.result.value];
      assert Semantics.ResolveParameters(first.state, owner, []) == Outcome(Ok([]), first.state);
    }
  }

  /** A factory with one dependency: the dependency's entry is obtained with
      the id marked in flight, then the closure is called with it alone. */
  lemma FactoryWithOneDependency(s: State, id: Id)
    requires Consistent(s)
    requires FactoryFor(s.typeMapping, id).Some? && |FactoryFor(s.typeMapping, id).value.deps| == 1
    requires id !in s.resolvedEntries && id !in s.entriesBeingResolved
    ensures var f := FactoryFor(s.typeMapping, id).value;
      var marked := s.(entriesBeingResolved := s.entriesBeingResolved + {id});
      var inner := Semantics.Get(marked, f.deps[0]);
      Semantics.Get(s, id).result ==
        if inner.result.Err? then Err(inner.result.error)
        else if 1 < f.factory.required then Err(ContainerError(TooFewArguments(id)))
        else if !f.factory.returnsObject then Err(ReturnTypeError(id))
        else Ok(Produced(f.factory, [inner.result.value]))
  {
    var f := FactoryFor(s.typeMapping, id).value;
    var marked := s.(entriesBeingResolved := s.entriesBeingResolved + {id});
    var inner := Semantics.Get(marked, f.deps[0]);
    assert f.deps[1..] == [];
    if inner.result.Ok? {
      assert [inner.result.value] + [] == [inner.result.value];
      assert Semantics.ResolveDependencies(inner.state, id, f.deps[1..]) == Outcome(Ok([]), inner.state);
      assert Semantics.ResolveDependencies(marked, id, f.deps) == Outcome(Ok([inner.result.value]), inner.state);
    } else {
      assert Semantics.ResolveDependencies(marked, id, f.deps) == Outcome(Err(inner.result.error), inner.state);
    }
  }

  /** A class whose first parameter has neither a class type nor a default
      cannot be built. */
  lemma UnresolvableFirstParameter(s: State, c: Id)
    requires Consistent(s)
    requires c !in s.typeMapping && c !in s.resolvedEntries && c !in s.entriesBeingResolved
    requires c in s.classes && s.classes[c].instantiable && s.classes[c].params != []
    requires s.classes[c].params[0].classType.None? && s.classes[c].params[0].defaultValue.None?
    ensures Semantics.Get(s, c).result == Err(ContainerError(UnresolvableParameter(s.classes[c].params[0].name)))
  {
    var marked := s.(entriesBeingResolved := s.entriesBeingResolved + {c});
    var defined := marked.(definitions := s.definitions[c := s.classes[c]]);
    var params := s.classes[c].params;
    var e := ContainerError(UnresolvableParameter(params[0].name));
    assert Semantics.ResolveParameter(defined, c, params[0]) == Outcome(Err(e), defined);
    assert Semantics.ResolveParameters(defined, c, params) == Outcome(Err(e), defined);
    assert Semantics.Instantiate(marked, c) == Outcome(Err(e), defined);
  }

  /** Each constructor parameter of a class type receives the entry of that
      type: after the build, `get` of the type returns that very argument. */
  lemma ArgumentIsEntry(s: State, id: Id, i: nat)
    requires Consistent(s)
    requires FactoryFor(s.typeMapping, id).None? && Target(s.typeMapping, id) !in s.resolvedEntries
    requires Semantics.Get(s, id).result.Ok?
    requires Target(s.typeMapping, id) in s.classes && i < |s.classes[Target(s.typeMapping, id)].params|
    requires s.classes[Target(s.typeMapping, id)].params[i].classType.Some?
    ensures var o := Semantics.Get(s, id);
      var c := s.classes[Target(s.typeMapping, id)].params[i].classType.value;
      && o.result.value.Instance? && i < |o.result.value.args|
      && Semantics.Get(o.state, c) == Outcome(Ok(o.result.value.args[i]), o.state)
  {
    var key := Target(s.typeMapping, id);
    var params := s.classes[key].params;
    var c := params[i].classType.value;
    var marked := s.(entriesBeingResolved := s.entriesBeingResolved + {key});
    var built := Semantics.Instantiate(marked, key);
    var o := Semantics.Get(s, id);
    assert o == Semantics.Release(s, key, built);
    assert Semantics.Constructed(marked, built, key);
    var args := built.result.value.args;
    assert Semantics.Supplies(built.state, params[i], args[i]);
    assert Memoized(built.state, Target(s.typeMapping, c), args[i]);
    assert key !in built.state.resolvedEntries;
    assert Memoized(o.state, Target(s.typeMapping, c), args[i]);
    MemoHit(o.state, c);
  }

  /** A factory whose closure needs more arguments than its dependencies
      supply fails with the arity error once the dependencies resolve, for
      any number of dependencies. */
  lemma FactoryArityMismatch(s: State, id: Id)
    requires Consistent(s)
    requires FactoryFor(s.typeMapping, id).Some?
    requires id !in s.resolvedEntries && id !in s.entriesBeingResolved
    requires var f := FactoryFor(s.typeMapping, id).value;
      var marked := s.(entriesBeingResolved := s.entriesBeingResolved + {id});
      Semantics.ResolveDependencies(marked, id, f.deps).result.Ok? && |f.deps| < f.factory.required
    ensures Semantics.Get(s, id).result == Err(ContainerError(TooFewArguments(id)))
  {
  }

  /** A factory whose closure accepts the arguments but returns no object
      fails the declared `object` return type, for any number of
      dependencies. */
  lemma FactoryReturnTypeEnforced(s: State, id: Id)
    requires Consistent(s)
    requires FactoryFor(s.typeMapping, id).Some?
    requires id !in s.resolvedEntries && id !in s.entriesBeingResolved
    requires var f := FactoryFor(s.typeMapping, id).value;
      var marked := s.(entriesBeingResolved := s.entriesBeingResolved + {id});
      && Semantics.ResolveDependencies(marked, id, f.deps).result.Ok?
      && f.factory.required <= |f.deps| && !f.factory.returnsObject
    ensures Semantics.Get(s, id).result == Err(ReturnTypeError(id))
  {
  }

  /** A factory whose dependencies resolve and whose closure accepts them and
      returns an object is called with the dependencies' entries, for any
      number of dependencies, and its product is the entry. */
  lemma FactoryBuilt(s: State, id: Id)
    requires Consistent(s)
    requires FactoryFor(s.typeMapping, id).Some?
    requires id !in s.resolvedEntries && id !in s.entriesBeingResolved
    requires var f := FactoryFor(s.typeMapping, id).value;
      var marked := s.(entriesBeingResolved := s.entriesBeingResolved + {id});
      && Semantics.ResolveDependencies(marked, id, f.deps).result.Ok?
      && f.factory.required <= |f.deps| && f.factory.returnsObject
    ensures var f := FactoryFor(s.typeMapping, id).value;
      var marked := s.(entriesBeingResolved := s.entriesBeingResolved + {id});
      Semantics.Get(s, id).result == Ok(Produced(f.factory, Semantics.ResolveDependencies(marked, id, f.deps).result.value))
  {
  }

  /** A dependency that fails makes the factory fail with that same error,
      for any number of dependencies; the closure is never called. */
  lemma FactoryDependencyFails(s: State, id: Id)
    requires Consistent(s)
    requires FactoryFor(s.typeMapping, id).Some?
    requires id !in s.resolvedEntries && id !in s.entriesBeingResolved
    requires var f := FactoryFor(s.typeMapping, id).value;
      var marked := s.(entriesBeingResolved := s.entriesBeingResolved + {id});
      Semantics.ResolveDependencies(marked, id, f.deps).result.Err?
    ensures var f := FactoryFor(s.typeMapping, id).value;
      var marked := s.(entriesBeingResolved := s.entriesBeingResolved + {id});
      Semantics.Get(s, id).result == Err(Semantics.ResolveDependencies(marked, id, f.deps).result.error)
  {
  }

  /** A class with no constructor parameters is built with no arguments and
      memoized under the rewritten id; exactly the memo, the definitions
      cache and the counter change. */
  lemma ZeroParameterClassBuilt(s: State, id: Id)
    requires Consistent(s)
    requires FactoryFor(s.typeMapping, id).None?
    requires Target(s.typeMapping, id) !in s.resolvedEntries && Target(s.typeMapping, id) !in s.entriesBeingResolved
    requires Target(s.typeMapping, id) in s.classes && s.classes[Target(s.typeMapping, id)].instantiable
    requires s.classes[Target(s.typeMapping, id)].params == []
    ensures var key := Target(s.typeMapping, id);
      var v := Instance(s.nextRef, key, []);
      Semantics.Get(s, id) == Outcome(Ok(v), s.(
        resolvedEntries := s.resolvedEntries[key := v],
        definitions := s.definitions[key := s.classes[key]],
        nextRef := s.nextRef + 1))
  {
    var key := Target(s.typeMapping, id);
    assert (s.entriesBeingResolved + {key}) - {key} == s.entriesBeingResolved;
  }

  /** The declared defaults of `params`, in order. */
  function Defaults(params: seq<Param>): (args: seq<Value>)
    requires forall i :: 0 <= i < |params| ==> params[i].defaultValue.Some?
    ensures |args| == |params|
    ensures forall i :: 0 <= i < |args| ==> args[i] == Default(params[i].defaultValue.value)
  {
    if params == [] then [] else [Default(params[0].defaultValue.value)] + Defaults(params[1..])
  }

  /** Parameters that are all untyped or builtin and all have defaults
      resolve to those defaults, in order, and change nothing. */
  lemma {:induction false} AllDefaultsResolve(s: State, owner: Id, params: seq<Param>)
    requires Consistent(s) && owner in s.entriesBeingResolved && owner in Universe(s)
    requires forall i :: 0 <= i < |params| ==> params[i].classType.None? && params[i].defaultValue.Some?
    ensures Semantics.ResolveParameters(s, owner, params) == Outcome(Ok(Defaults(params)), s)
  {
    if params != [] {
      assert forall i :: 0 <= i < |params[1..]| ==> params[1..][i] == params[i + 1];
      AllDefaultsResolve(s, owner, params[1..]);
    }
  }

  /** A class whose constructor parameters all fall back on their defaults
      is built with those defaults, in order, and memoized. */
  lemma AllDefaultsClassBuilt(s: State, id: Id)
    requires Consistent(s)
    requires FactoryFor(s.typeMapping, id).None?
    requires Target(s.typeMapping, id) !in s.resolvedEntries && Target(s.typeMapping, id) !in s.entriesBeingResolved
    requires Target(s.typeMapping, id) in s.classes && s.classes[Target(s.typeMapping, id)].instantiable
    requires var params := s.classes[Target(s.typeMapping, id)].params;
      params != [] && forall i :: 0 <= i < |params| ==> params[i].classType.None? && params[i].defaultValue.Some?
    ensures var key := Target(s.typeMapping, id);
      var v := Instance(s.nextRef, key, Defaults(s.classes[key].params));
      Semantics.Get(s, id) == Outcome(Ok(v), s.(
        resolvedEntries := s.resolvedEntries[key := v],
        definitions := s.definitions[key := s.classes[key]],
        nextRef := s.nextRef + 1))
  {
    var key := Target(s.typeMapping, id);
    AllDefaultsInstantiated(s.(entriesBeingResolved := s.entriesBeingResolved + {key}), key);
    assert (s.entriesBeingResolved + {key}) - {key} == s.entriesBeingResolved;
  }

  /** The reflection step of `AllDefaultsClassBuilt`, with the class marked. */
  lemma AllDefaultsInstantiated(marked: State, key: Id)
    requires Consistent(marked) && key in marked.entriesBeingResolved
    requires key in marked.classes && marked.classes[key].instantiable
    requires var params := marked.classes[key].params;
      params != [] && forall i :: 0 <= i < |params| ==> params[i].classType.None? && params[i].defaultValue.Some?
    ensures Semantics.Instantiate(marked, key) ==
      Semantics.NewInstance(marked.(definitions := marked.definitions[key := marked.classes[key]]), key, Defaults(marked.classes[key].params))
  {
    var defined := marked.(definitions := marked.definitions[key := marked.classes[key]]);
    assert Semantics.GetDefinition(marked, key) == (Some(marked.classes[key]), defined);
    AllDefaultsResolve(defined, key, marked.classes[key].params);
  }

  /** One untyped or builtin parameter without a default, at any position,
      makes the resolution of the parameter list fail. */
  lemma {:induction false} UnresolvableSomewhere(s: State, owner: Id, params: seq<Param>, i: nat)
    requires Consistent(s) && owner in s.entriesBeingResolved && owner in Universe(s)
    requires i < |params| && params[i].classType.None? && params[i].defaultValue.None?
    ensures Semantics.ResolveParameters(s, owner, params).result.Err?
    decreases i
  {
    var first := Semantics.ResolveParameter(s, owner, params[0]);
    if i > 0 && first.result.Ok? {
      assert params[1..][i - 1] == params[i];
      UnresolvableSomewhere(first.state, owner, params[1..], i - 1);
    }
  }

  /** A class with such a parameter anywhere in its constructor cannot be
      built, and nothing is memoized for it. */
  lemma UnresolvableParameterFails(s: State, c: Id, i: nat)
    requires Consistent(s)
    requires c !in s.typeMapping && c !in s.resolvedEntries && c !in s.entriesBeingResolved
    requires c in s.classes && s.classes[c].instantiable && i < |s.classes[c].params|
    requires s.classes[c].params[i].classType.None? && s.classes[c].params[i].defaultValue.None?
    ensures Semantics.Get(s, c).result.Err?
    ensures c !in Semantics.Get(s, c).state.resolvedEntries
  {
    var marked := s.(entriesBeingResolved := s.entriesBeingResolved + {c});
    var defined := marked.(definitions := marked.definitions[c := s.classes[c]]);
    assert Semantics.GetDefinition(marked, c) == (Some(s.classes[c]), defined);
    UnresolvableSomewhere(defined, c, s.classes[c].params, i);
  }
}
