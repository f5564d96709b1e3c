/** The model classes the container's own scenarios use (Dummy, Foo,
    DummyInterface, DummyRecursive, DummyUnion) and what a new container
    does with them. Each scenario holds for every reflection table that
    loads these classes. */
module Fixtures {
  import opened FactoryDefinitions
  import opened Model
  import Semantics
  import Properties

  /** `Dummy(string|array|null $optionalValue = null)`: a union type, so the
      default is used. */
  const DummyDef := TypeDef(true, [Param("optionalValue", None, Some("null"))])
  /** `Foo(DummyInterface $dummy)`. */
  const FooDef := TypeDef(true, [Param("dummy", Some("DummyInterface"), None)])
  /** `DummyRecursive(DummyRecursive $dummy)`. */
  const RecursiveDef := TypeDef(true, [Param("dummy", Some("DummyRecursive"), None)])
  /** `DummyUnion(FooInterface|DummyInterface $input)`: a union type without
      a default. */
  const UnionDef := TypeDef(true, [Param("input", None, None)])
  /** An interface cannot be instantiated. */
  const InterfaceDef := TypeDef(false, [])

  /** `classes` loads the model classes; no class is named `dummy` or
      `SomeClass`, and the unqualified name `FooInterface` loads nothing. */
  ghost predicate LoadsModels(classes: map<Id, TypeDef>) {
    && "Dummy" in classes && classes["Dummy"] == DummyDef
    && "Foo" in classes && classes["Foo"] == FooDef
    && "DummyRecursive" in classes && classes["DummyRecursive"] == RecursiveDef
    && "DummyUnion" in classes && classes["DummyUnion"] == UnionDef
    && "DummyInterface" in classes && classes["DummyInterface"] == InterfaceDef
    && "dummy" !in classes && "SomeClass" !in classes && "FooInterface" !in classes
  }

  /** A new container over `classes`. */
  function Fresh(classes: map<Id, TypeDef>): (s: State)
    ensures Consistent(s) && s.classes == classes
  {
    State(classes, map[], map[], {}, map[], 0)
  }

  /** The new container after `set(DummyInterface::class, Dummy::class)`. */
  function Mapped(classes: map<Id, TypeDef>): (s: State)
    ensures Consistent(s) && s.classes == classes
  {
    Fresh(classes).(typeMapping := map["DummyInterface" := Alias("Dummy")])
  }

  /** `Dummy` with its default argument, the first object allocated. */
  const FirstDummy := Instance(0, "Dummy", [Default("null")])

  /** Asking for a name no class has is `NotFoundException`. */
  lemma UnknownNameNotFound(classes: map<Id, TypeDef>)
    requires LoadsModels(classes)
    ensures Semantics.Get(Fresh(classes), "dummy") == Outcome(Err(NotFound("dummy")), Fresh(classes))
  {
    Properties.MissingIsNotFound(Fresh(classes), "dummy");
  }

  /** An unregistered interface cannot be obtained, though `has` reports it. */
  lemma UnregisteredInterfaceRefused(classes: map<Id, TypeDef>)
    requires LoadsModels(classes)
    ensures Semantics.Has(Fresh(classes), "DummyInterface").0
    ensures Semantics.Get(Fresh(classes), "DummyInterface").result
         == Err(ContainerError(NotInstantiable("DummyInterface")))
  {
    Properties.HasButNotInstantiable(Fresh(classes), "DummyInterface");
  }

  /** A class that needs itself is refused as a cycle. */
  lemma RecursiveClassRefused(classes: map<Id, TypeDef>)
    requires LoadsModels(classes)
    ensures Semantics.Get(Fresh(classes), "DummyRecursive").result
         == Err(ContainerError(CircularDependency("DummyRecursive")))
  {
    Properties.SelfDependentClassFails(Fresh(classes), "DummyRecursive");
  }

  /** A class whose constructor wants a union type without a default cannot
      be built. */
  lemma UnionWithoutDefaultRefused(classes: map<Id, TypeDef>)
    requires LoadsModels(classes)
    ensures Semantics.Get(Fresh(classes), "DummyUnion").result
         == Err(ContainerError(UnresolvableParameter("input")))
  {
    Properties.UnresolvableFirstParameter(Fresh(classes), "DummyUnion");
  }

  /** Without a mapping for its interface, `Foo` cannot be built. */
  lemma FooNeedsMapping(classes: map<Id, TypeDef>)
    requires LoadsModels(classes)
    ensures Semantics.Get(Fresh(classes), "Foo").result == Err(ContainerError(NotInstantiable("DummyInterface")))
  {
    var s := Fresh(classes);
    Properties.BuildWithOneDependency(s, "Foo");
    var defined := s.(entriesBeingResolved := s.entriesBeingResolved + {"Foo"},
                      definitions := s.definitions["Foo" := s.classes["Foo"]]);
    Properties.HasButNotInstantiable(defined, "DummyInterface");
  }

  /** `set` of the mapping on a new container gives `Mapped`. */
  lemma MappingRegistered(classes: map<Id, TypeDef>)
    requires LoadsModels(classes)
    ensures Semantics.Set(Fresh(classes), "DummyInterface", TypeName("Dummy"), None)
         == Outcome(Ok(()), Mapped(classes))
  {
  }

  /** With the mapping, building `Foo` builds one `Dummy` with its default
      and injects it. */
  lemma MappedFooBuilt(classes: map<Id, TypeDef>)
    requires LoadsModels(classes)
    ensures Semantics.Get(Mapped(classes), "Foo").result == Ok(Instance(1, "Foo", [FirstDummy]))
  {
    var s := Mapped(classes);
    Properties.BuildWithOneDependency(s, "Foo");
    var defined := s.(entriesBeingResolved := s.entriesBeingResolved + {"Foo"},
                      definitions := s.definitions["Foo" := s.classes["Foo"]]);
    Properties.BuildWithDefault(defined, "DummyInterface");
  }

  /** With the interface mapped to `Dummy`, `get` of the interface builds a
      `Dummy`, and `get(Dummy)` afterwards returns that same object. */
  lemma MappedDummyShared(classes: map<Id, TypeDef>)
    requires LoadsModels(classes)
    ensures var first := Semantics.Get(Mapped(classes), "DummyInterface");
      && first.result == Ok(FirstDummy)
      && Semantics.Get(first.state, "Dummy").result == Ok(FirstDummy)
  {
    var s := Mapped(classes);
    Properties.BuildWithDefault(s, "DummyInterface");
    Properties.AliasThenTarget(s, "DummyInterface", "Dummy");
  }

  /** The `Dummy` injected into `Foo` is afterwards the entry of the
      interface and of `Dummy` itself: one shared object. */
  lemma MappedInterfaceIsShared(classes: map<Id, TypeDef>)
    requires LoadsModels(classes)
    ensures var t := Semantics.Get(Mapped(classes), "Foo").state;
      && Semantics.Get(t, "DummyInterface").result == Ok(FirstDummy)
      && Semantics.Get(t, "Dummy").result == Ok(FirstDummy)
  {
    var s := Mapped(classes);
    MappedFooBuilt(classes);
    Properties.ArgumentIsEntry(s, "Foo", 0);
    var t := Semantics.Get(s, "Foo").state;
    Properties.AliasThenTarget(t, "DummyInterface", "Dummy");
  }

  /** A factory registered with its dependency receives it: with the
      interface mapped, a one-argument closure for `Foo` that depends on the
      interface is called with the `Dummy` built for it. */
  lemma FactoryWithDependency(classes: map<Id, TypeDef>, c: Closure)
    requires LoadsModels(classes)
    requires c.required == 1 && c.returnsObject
    ensures var s := Semantics.Set(Mapped(classes), "Foo", Callable(c), Some(["DummyInterface"])).state;
      Semantics.Get(s, "Foo").result == Ok(Produced(c, [FirstDummy]))
  {
    var s := Semantics.Set(Mapped(classes), "Foo", Callable(c), Some(["DummyInterface"])).state;
    Properties.FactoryWithOneDependency(s, "Foo");
    Properties.BuildWithDefault(s.(entriesBeingResolved := s.entriesBeingResolved + {"Foo"}), "DummyInterface");
  }

  /** A closure that needs an argument but is registered without
      dependencies is called with none and fails. */
  lemma FactoryWithoutDependencyFails(classes: map<Id, TypeDef>, c: Closure)
    requires LoadsModels(classes)
    requires c.required == 1
    ensures var s := Semantics.Set(Fresh(classes), "Foo", Callable(c), None).state;
      Semantics.Get(s, "Foo") == Outcome(Err(ContainerError(TooFewArguments("Foo"))), s)
  {
    var s := Semantics.Set(Fresh(classes), "Foo", Callable(c), None).state;
    Properties.FactoryWithoutDependencies(s, "Foo", c);
  }

  /** A closure registered for an interface produces the interface's entry,
      and `has` reports the interface, found by reflection. */
  lemma FactoryForInterface(classes: map<Id, TypeDef>, c: Closure)
    requires LoadsModels(classes)
    requires c.required == 0 && c.returnsObject
    ensures var s := Semantics.Set(Fresh(classes), "DummyInterface", Callable(c), None).state;
      && Semantics.Has(s, "DummyInterface").0
      && Semantics.Get(s, "DummyInterface").result == Ok(Produced(c, []))
  {
    var s := Semantics.Set(Fresh(classes), "DummyInterface", Callable(c), None).state;
    Properties.FactoryWithoutDependencies(s, "DummyInterface", c);
  }

  /** A closure whose result is not an object fails the declared `object`
      return type. */
  lemma FactoryReturningNoObjectFails(classes: map<Id, TypeDef>, c: Closure)
    requires LoadsModels(classes)
    requires c.required == 0 && !c.returnsObject
    ensures var s := Semantics.Set(Fresh(classes), "foo", Callable(c), None).state;
      Semantics.Get(s, "foo").result == Err(ReturnTypeError("foo"))
  {
    var s := Semantics.Set(Fresh(classes), "foo", Callable(c), None).state;
    Properties.FactoryWithoutDependencies(s, "foo", c);
  }

  /** `has` finds a class without building it and does not find a name no
      class has, even after that name is mapped to a class. */
  lemma HasScenarios(classes: map<Id, TypeDef>)
    requires LoadsModels(classes)
    ensures Semantics.Has(Fresh(classes), "Foo").0
    ensures !Semantics.Has(Fresh(classes), "SomeClass").0
    ensures !Semantics.Has(Fresh(classes), "FooInterface").0
    ensures var s := Semantics.Set(Fresh(classes), "FooInterface", TypeName("Foo"), None).state;
      !Semantics.Has(s, "FooInterface").0
  {
  }

  /** Registering the mapping a second time is refused. */
  lemma RegisteredTwiceRefused(classes: map<Id, TypeDef>)
    requires LoadsModels(classes)
    ensures Semantics.Set(Mapped(classes), "DummyInterface", TypeName("alreadyRegistered"), None).result
         == Err(ContainerError(AlreadyRegistered("DummyInterface")))
  {
    assert "DummyInterface" in Mapped(classes).typeMapping;
  }

  /** Registering the alias again after it has been resolved is refused as
      already registered. */
  lemma RegisteredAfterResolutionRefused(classes: map<Id, TypeDef>)
    requires LoadsModels(classes)
    ensures var t := Semantics.Get(Mapped(classes), "DummyInterface").state;
      Semantics.Set(t, "DummyInterface", TypeName("alreadyRegistered"), None).result
        == Err(ContainerError(AlreadyRegistered("DummyInterface")))
  {
    var s := Mapped(classes);
    Properties.BuildWithDefault(s, "DummyInterface");
    assert "DummyInterface" in s.typeMapping;
  }
}
