# sportlog/di container, modelled in Dafny

This project models the core of `sportlog/di`. That library is a small PSR-11
dependency-injection container for PHP. It has one class, `Container`, with
three public operations:

- `get($id)` returns the entry for an id. It follows an alias one step and answers
  from its memo when it can. It refuses an id that is already being resolved.
  Otherwise it builds the entry, either by calling a registered factory closure or
  by reflecting on the class's constructor and resolving each parameter.
  Resolving a parameter calls `get` again.
- `set($id, $value, $deps)` registers either an alias (a class name) or a factory
  (a closure plus the ids of its dependencies).
- `has($id)` reports whether the memo holds the id or reflection can find a class
  of that name.

`FactoryDefinition` is the immutable record a closure registration stores.

## Files

- `factory_definition.dfy`, module `FactoryDefinitions`:
  - `FactoryDefinition` is a datatype with its two getters.
  - A closure is an opaque value. It carries the number of arguments it requires
    and whether what it returns is an object.
- `model.dfy`, module `Model`, holds the entities:
  - parameters, class definitions, values, errors and type-mapping entries;
  - the container `State`, meaning the four maps of `Container` plus the reflection
    table and an allocation counter;
  - the invariant `Consistent`;
  - the frame predicate `Evolves`, which says how any resolution may change a state;
  - the termination measure.
- `semantics.dfy`, module `Semantics`: each private and public method of
  `Container`, written as a function from a state to a result and the next state.
  - The functions are mutually recursive, as the PHP methods are.
  - Termination rests on one fact: each recursive call first marks a fresh id of
    the finite set of known classes and mapped ids as in flight.
- `container.dfy`, module `DI`: class `Container`.
  - Its fields are the source's four maps.
  - Its methods update those maps in place, with the same recursion and the same
    left-to-right loops.
  - Each method is proved to leave exactly the result and state that its
    `Semantics` function describes.
- `properties.dfy`, module `Properties`, proves what the container promises across
  calls:
  - memoization and single construction;
  - the one-step alias rewrite, and the shared entry of an alias and its target;
  - cycle refusal;
  - the registration guards;
  - what `has` does and does not tell;
  - the shape of constructed and produced entries.
- `fixtures.dfy`, module `Fixtures`: the scenarios of the library's own tests,
  over any reflection table that loads the test model classes (`Dummy`, `Foo`,
  `DummyInterface`, `DummyRecursive`, `DummyUnion`).

An object built by reflection is a value tagged with an allocation token, so
two such instances are the same object exactly when they are equal. A factory's
result is `Produced(closure, args)`: what that closure returned for those
arguments. It carries no token, because whether a closure returns a new object
or the same one each time is up to the closure.

## Where the code and its tests disagree

The model follows `src/Container.php` in each of these cases.

- `has` never looks at the type mapping (`src/Container.php:128-135`).
  - `tests/TestCase/ContainerTest.php:93-102` expects `true` after
    `set(FooInterface::class, Foo::class)`.
  - The model answers `false`: see `Fixtures.HasScenarios` and
    `Properties.HasIgnoresTypeMapping`.
  - The docblock at `src/Container.php:119` says `has` reports whether the
    container can return an entry; the code does not count a registered alias.
- A factory registered without dependencies is called with no arguments
  (`src/Container.php:174-176`).
  - `tests/TestCase/ContainerTest.php:37-43` expects the closure's typed parameter
    to be injected.
  - In the model, such a closure fails with too few arguments: see
    `Fixtures.FactoryWithoutDependencyFails`.
- `instantiateFromFactory` declares the return type `object` (`src/Container.php:172`),
  so a closure that returns a string raises a `TypeError`.
  - `tests/TestCase/ContainerTest.php:45-50` expects the string to be returned.
  - The model gives `ReturnTypeError`: see `Fixtures.FactoryReturningNoObjectFails`.
- The test names `testMappingExistsThrows` and `testMappingWhenEntryResolvedThrows`
  are swapped relative to what their bodies do. The fixtures follow the bodies.

## Model

| member | source | states |
|---|---|---|
| `FactoryDefinitions.GettersReturnConstructorArguments` | src/FactoryDefinition.php:19-39 | `getFactory()` and `getDependencies()` return exactly the closure and the ordered list given to the constructor |
| `FactoryDefinitions.DependenciesDefaultToEmpty` | src/FactoryDefinition.php:19 | without a dependency list the record holds the empty list |
| `FactoryDefinitions.DefinitionDeterminedByArguments` | src/FactoryDefinition.php:18-40 | two records are equal exactly when their closures and dependency lists are: the record is immutable and holds nothing else |
| `Semantics.Get` | src/Container.php:82-116 | keeps `Consistent` and `Evolves` (the in-flight set comes back as it was; memo entries are never removed or overwritten); on success the value is memoized under the alias-rewritten id; on failure nothing is memoized under it |
| `Semantics.Release` | src/Container.php:111-115 | the result passes through unchanged; a built value is memoized under the key; the key leaves the in-flight set on both paths |
| `Semantics.InstantiateFromFactory` | src/Container.php:172-181 | success only when the closure needs no more arguments than there are dependencies and returns an object; the result is that closure applied to the entries of the dependencies, in order (for any number of dependencies, the success case is stated for `get` by `Properties.FactoryBuilt`, a failing dependency by `Properties.FactoryDependencyFails`, and the two closure errors by `Properties.FactoryArityMismatch` and `Properties.FactoryReturnTypeEnforced`) |
| `Semantics.ResolveDependencies` | src/Container.php:174 | on success there is one argument per dependency id and each is, position by position, the memoized entry of that id |
| `Semantics.Instantiate` | src/Container.php:191-208 | an unknown class is `NotFound` and changes nothing; a non-instantiable class is `NotInstantiable`; an instantiable class without constructor parameters is built with no arguments as the next object, its definition cached and nothing else changed; a success is a new object of the class, allocated during the call, whose arguments are what its declared parameters call for |
| `Semantics.ResolveParameters` | src/Container.php:206 | on success there is one argument per parameter, in declared order, each supplied as `resolveParameter` prescribes |
| `Semantics.ResolveParameter` | src/Container.php:238-251 | a class-typed parameter receives the memoized entry of its type; otherwise the state is unchanged, and it succeeds exactly when a default is declared, returning that default |
| `Semantics.GetDefinition` | src/Container.php:216-229 | answers exactly what reflection knows of the id; a found definition is cached and an unknown id changes nothing |
| `Semantics.Has` | src/Container.php:128-135 | true exactly when the memo holds the id or reflection knows a class of that name; it never fails and changes only the definitions cache |
| `Semantics.Set` | src/Container.php:148-163 | fails exactly when the id is memoized (`AlreadyResolved`, checked first) or already mapped (`AlreadyRegistered`), and then changes nothing; otherwise it adds exactly one type-mapping entry, with `deps ?? []` for a closure |
| `DI.Container.constructor` | src/Container.php:55-71 | a new container has all four maps empty |
| `DI.Container.Get` | src/Container.php:82-101 | the method's result and new fields are exactly `Semantics.Get` of its old fields |
| `DI.Container.Build` | src/Container.php:103-115 | with the key marked in flight, builds by factory or by reflection, memoizes, and unmarks: together with the memo and cycle checks of `Get`, this is `Semantics.Get` |
| `DI.Container.Release` | src/Container.php:111-115 | the memo gains the built value under the key, and the key leaves the in-flight set; nothing else changes |
| `DI.Container.Has` | src/Container.php:128-135 | result and new fields are `Semantics.Has` of the old fields |
| `DI.Container.Set` | src/Container.php:148-163 | result and new fields are `Semantics.Set` of the old fields |
| `DI.Container.InstantiateFromFactory` | src/Container.php:172-181 | result and new fields are `Semantics.InstantiateFromFactory` of the old fields |
| `DI.Container.ResolveDependencies` | src/Container.php:174 | the loop over the dependencies leaves `Semantics.ResolveDependencies` of the old fields |
| `DI.Container.Instantiate` | src/Container.php:191-208 | result and new fields are `Semantics.Instantiate` of the old fields |
| `DI.Container.ResolveParameters` | src/Container.php:206 | the loop over the parameters leaves `Semantics.ResolveParameters` of the old fields |
| `DI.Container.NewInstance` | src/Container.php:201-207 | `new` yields an object with the next allocation token and advances the counter |
| `DI.Container.GetDefinition` | src/Container.php:216-229 | result and new fields are `Semantics.GetDefinition` of the old fields |
| `DI.Container.ResolveParameter` | src/Container.php:238-251 | result and new fields are `Semantics.ResolveParameter` of the old fields |
| `DI.GetFinishes` | src/Container.php:103-115 | marking, building, memoizing and the `finally` compose to `Semantics.Get`, and keep the invariant |
| `DI.InstantiateFinishes` | src/Container.php:206-207 | once the parameters are resolved, `instantiate` is `new` with those arguments, or the failure passed on |
| `Properties.MemoHit` | src/Container.php:94-97 | when the rewritten id is memoized, `get` returns that entry and changes nothing |
| `Properties.GetTwice` | src/Container.php:94-111 | a second `get` of an id that succeeded returns the same value and changes nothing: no second construction |
| `Properties.ResolvedForever` | src/Container.php:94-111 | once obtained, an entry is what `get` returns in every later state reached by resolutions |
| `Properties.ResolvedSurvivesSet` | src/Container.php:150-162 | no `set` redirects an id whose entry is resolved |
| `Properties.AliasThenTarget` | src/Container.php:86-111 | after `get(alias)`, `get(target)` returns the same object |
| `Properties.TargetThenAlias` | src/Container.php:86-111 | after `get(target)`, `get(alias)` returns the same object |
| `Properties.AliasFollowedOnce` | src/Container.php:86-92 | an alias is rewritten once: the target's own mapping is not consulted, and a target that is not a class is `NotFound` with nothing changed |
| `Properties.CycleRefused` | src/Container.php:99-101 | an id in flight is refused with `CircularDependency` and nothing changes |
| `Properties.SelfDependentClassFails` | src/Container.php:99-115 | a class whose first parameter has its own type fails with `CircularDependency`; only its definition is cached, and the in-flight set and memo are as before |
| `Properties.ReflectionBuildsFreshObject` | src/Container.php:201-207 | a reflective build yields a new object of the rewritten class, distinct from every entry memoized before |
| `Properties.FactoryReceivesDependencies` | src/Container.php:172-181 | a factory-built entry is the closure's result on exactly the entries of its dependencies, in order; the closure accepts that many arguments and returns an object |
| `Properties.FactoryWithoutDependencies` | src/Container.php:174-180 | a closure registered without dependencies is called with none: too few arguments if it requires any, a return-type error if it returns no object, else its result is memoized under the id |
| `Properties.NoSetAfterGet` | src/Container.php:150-156 | `set` fails for an id that `get` has answered |
| `Properties.NoSetTwice` | src/Container.php:154-156 | a second registration of an id fails with `AlreadyRegistered` and changes nothing |
| `Properties.HasIgnoresTypeMapping` | src/Container.php:128-135 | no type mapping changes any answer of `has` |
| `Properties.HasButNotInstantiable` | src/Container.php:122-135 | `has` can be true while `get` fails with `NotInstantiable` |
| `Properties.DependencyNotFoundPropagates` | src/Container.php:122-123 | `has` can be true while `get` fails with the `NotFound` of a dependency |
| `Properties.HasButAliasMissing` | src/Container.php:84-135 | `has` is true for a class mapped to a name no class has, while `get` of it fails with `NotFoundException` for that name and changes nothing |
| `Properties.MissingIsNotFound` | src/Container.php:193-196 | an id that is unmapped, unmemoized, not in flight and not a class is `NotFound`, with nothing changed |
| `Properties.GetDefinitionCached` | src/Container.php:218-220 | a second lookup answers the same and changes nothing |
| `Properties.BuildWithDefault` | src/Container.php:245-248 | a class whose one parameter is untyped or builtin with a default becomes a new object holding that default; exactly the memo, definition cache and counter change |
| `Properties.BuildWithOneDependency` | src/Container.php:238-243 | a class whose one parameter is class-typed: the parameter's entry is obtained with the class in flight, and becomes the argument of a new object memoized under the class; its failure is the class's failure |
| `Properties.InstantiateWithOneDependency` | src/Container.php:206-207 | `instantiate` of such a class is `new` applied to the parameter's entry, or that entry's failure |
| `Properties.FactoryBuilt` | src/Container.php:174-176 | whatever the number of dependencies, once they resolve, a closure that accepts them and returns an object is called with their entries in order, and `get` returns its product |
| `Properties.FactoryDependencyFails` | src/Container.php:174 | whatever the number of dependencies, a dependency whose resolution fails makes `get` fail with that same error |
| `Properties.FactoryArityMismatch` | src/Container.php:174-179 | whatever the number of dependencies, once they resolve, a closure that requires more arguments than they supply makes `get` fail with the arity `ContainerException` |
| `Properties.FactoryReturnTypeEnforced` | src/Container.php:172-176 | whatever the number of dependencies, once they resolve, a closure that accepts them but returns no object makes `get` fail the `object` return type |
| `Properties.FactoryWithOneDependency` | src/Container.php:174-180 | a factory with one dependency is called with that dependency's entry alone, obtained with the id in flight |
| `Properties.ZeroParameterClassBuilt` | src/Container.php:201-203 | `get` of a class without constructor parameters returns the next object with no arguments; exactly the memo, definition cache and counter change |
| `Properties.AllDefaultsResolve` | src/Container.php:206 | a parameter list whose parameters are all untyped or builtin with defaults resolves to those defaults, in order, and changes nothing |
| `Properties.AllDefaultsClassBuilt` | src/Container.php:205-207 | `get` of a class whose parameters all fall back on their defaults returns the next object holding those defaults, in order; exactly the memo, definition cache and counter change |
| `Properties.UnresolvableSomewhere` | src/Container.php:245-250 | a parameter list with an untyped or builtin parameter without default at any position fails to resolve |
| `Properties.UnresolvableParameterFails` | src/Container.php:206 | `get` of a class with such a parameter anywhere in its constructor fails and memoizes nothing for the class |
| `Properties.UnresolvableFirstParameter` | src/Container.php:250 | a class whose first parameter has no class type and no default fails with `UnresolvableParameter` naming it |
| `Properties.ArgumentIsEntry` | src/Container.php:241-243 | after a reflective build, `get` of a class-typed parameter's type returns the very argument the constructor received |
| `Fixtures.Fresh` | src/Container.php:55-71 | a new container over a reflection table satisfies the invariant |
| `Fixtures.UnknownNameNotFound` | tests/TestCase/ContainerExceptionTest.php:81-87 | `get("dummy")` is `NotFound` |
| `Fixtures.UnregisteredInterfaceRefused` | tests/TestCase/ContainerExceptionTest.php:37-43 | `get(DummyInterface)` without a registration is `NotInstantiable`, though `has` reports it |
| `Fixtures.RecursiveClassRefused` | tests/TestCase/ContainerExceptionTest.php:94-100 | `get(DummyRecursive)` is a `CircularDependency` |
| `Fixtures.UnionWithoutDefaultRefused` | tests/TestCase/Models/DummyUnion.php:8 | a union-typed parameter without a default is `UnresolvableParameter` |
| `Fixtures.FooNeedsMapping` | tests/TestCase/ContainerExceptionTest.php:24-30 | `get(Foo)` without a mapping fails with `NotInstantiable(DummyInterface)` |
| `Fixtures.MappingRegistered` | tests/TestCase/ContainerTest.php:55 | `set(DummyInterface, Dummy)` on a new container adds exactly that alias |
| `Fixtures.MappedFooBuilt` | tests/TestCase/ContainerTest.php:63-68 | with the alias, `get(Foo)` is a new `Foo` holding the first `Dummy`, built with its default |
| `Fixtures.MappedDummyShared` | tests/TestCase/ContainerTest.php:52-61 | with the interface mapped to `Dummy`, `get(DummyInterface)` builds a `Dummy` and `get(Dummy)` afterwards returns that same object |
| `Fixtures.MappedInterfaceIsShared` | tests/TestCase/ContainerTest.php:63-68 | after `get(Foo)`, `get(DummyInterface)` and `get(Dummy)` both return the `Dummy` injected into `Foo` |
| `Fixtures.FactoryWithDependency` | tests/TestCase/ContainerTest.php:70-79 | a factory for `Foo` with dependency `DummyInterface` is called with the `Dummy` built for it |
| `Fixtures.FactoryWithoutDependencyFails` | tests/TestCase/ContainerTest.php:37-43 | a one-argument closure registered without dependencies fails with too few arguments |
| `Fixtures.FactoryForInterface` | tests/TestCase/ContainerTest.php:23-29 | a closure registered for an interface gives the interface's entry, and `has` reports the interface |
| `Fixtures.FactoryReturningNoObjectFails` | tests/TestCase/ContainerTest.php:45-50 | a closure returning no object fails the `object` return type |
| `Fixtures.HasScenarios` | tests/TestCase/ContainerTest.php:81-102 | `has(Foo)` is true; `has("SomeClass")` is false; `has(FooInterface)` is false before and after mapping it |
| `Fixtures.RegisteredTwiceRefused` | tests/TestCase/ContainerExceptionTest.php:67-74 | registering the alias a second time is `AlreadyRegistered` |
| `Fixtures.RegisteredAfterResolutionRefused` | tests/TestCase/ContainerExceptionTest.php:50-60 | registering the alias again after `get` of it is still refused, as already registered, because the memo key is the target |

## Left out

- PHP reflection (`ReflectionClass`, `ReflectionParameter`, autoloading) is a foreign runtime facility. It is replaced by a fixed table from class names to definitions. Each parameter records whether its declared type is one named non-builtin type and whether it has a default.
- Closure invocation (`Closure::call`, binding `$this`) is not modelled. A closure is opaque: its required arity and whether it returns an object. `ArgumentCountError` becomes `TooFewArguments`, and the `object` return type becomes `ReturnTypeError`.
- A closure that itself calls back into the container is not modelled: closures are pure in the model.
- PHP `TypeError`s from passing a wrong argument type to a constructor are not modelled.
- PHP ignores arguments beyond those a closure declares; the model keeps them all in `Produced`'s arguments, so two closures that differ only in what they ignore are not identified.
- Class-name case insensitivity and namespace resolution are not modelled: ids are compared as plain strings.
- The two exception classes in `src/Exception/` are not part of this model beyond the two error kinds they stand for. Their message strings are not behaviour.
- `src/FactoryDefiniton.php` is not part of this model: it is an unused, misspelled duplicate in another namespace.
- The PSR-11 `ContainerInterface` plumbing is not part of this model.
- Semantics.Has: the PSR-11 comment at `src/Container.php:122-123` promises that `get` raises no `NotFoundException` once `has` is true. The code does not keep that promise for a missing dependency (see `Properties.DependencyNotFoundPropagates`), nor for a class that reflection finds but that is mapped to a name no class has: `has` looks at the class itself (`src/Container.php:130-134`), while `get` follows the mapping and raises `NotFoundException` for the target (lines 86-88); see `Properties.HasButAliasMissing`. The model states the code's behaviour.
- DI.Container.NewInstance: constructors never fail in the model (nor in `Semantics.NewInstance`). In PHP, `newInstance()` and `newInstanceArgs()` (`src/Container.php:203`, `207`) run the class's constructor, which may throw; `get` then passes the exception on after its `finally` and memoizes nothing. The constructor body is code outside the container, so the model has no such failure.
- DI.Container.InstantiateFromFactory: closures never throw in the model (nor in `Semantics.InstantiateFromFactory`), beyond the arity and return-type errors. In PHP, `->call($this, ...$args)` (`src/Container.php:176`) runs the closure body, which may throw any exception; `get` then passes it on after its `finally` and memoizes nothing. An injected argument whose type does not match a typed closure parameter raises a `TypeError` there, which the model does not have. An `ArgumentCountError` raised anywhere inside the closure body, not only by the call itself, is turned into the arity `ContainerException` at line 178; the model raises that error only for the closure's own required arity.
- Factory results have no identity of their own: two ids registered with the same closure and the same arguments get equal `Produced` values, whereas in PHP a closure such as `fn() => new Foo()` returns a different object each call. The model only relates a factory entry to its closure and arguments.
