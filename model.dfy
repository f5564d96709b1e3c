/** The entities of the container (src/Container.php) as values: identifiers,
    the reflected shape of a class, produced values, errors, the type mapping
    and the container's state. */
module Model {
  import opened FactoryDefinitions

  /** A class name or any other key a caller asks for. */
  type Id = string

  /** The source text of a parameter's declared default value; opaque. */
  type Literal = string

  datatype Option<+T> = None | Some(value: T)

  /** A constructor parameter as reflection reports it. `classType` is
      `Some(c)` exactly when the declared type is one named, non-builtin type
      `c` (a nullable `?C` included); builtin types, union types and missing
      types are `None`. `defaultValue` is present when a default is declared. */
  datatype Param = Param(name: string, classType: Option<Id>, defaultValue: Option<Literal>)

  /** What reflection knows of a class: whether `new` may be applied to it
      (interfaces and abstract classes may not) and its constructor's
      parameters in declared order (empty when there is no constructor). */
  datatype TypeDef = TypeDef(instantiable: bool, params: seq<Param>)

  /** A value the container hands out or injects. An `Instance` is a new
      object of class `cls`; its `ref` is an allocation token, so two
      instances are the same object exactly when they are equal. A factory's
      result is what its closure returned for those arguments. */
  datatype Value =
    | Instance(ref: nat, cls: Id, args: seq<Value>)
    | Produced(closure: Closure, args: seq<Value>)
    | Default(literal: Literal)

  /** Why a `ContainerException` is thrown. */
  datatype Cause =
    | CircularDependency(id: Id)
    | NotInstantiable(id: Id)
    | UnresolvableParameter(name: string)
    | TooFewArguments(id: Id)
    | AlreadyResolved(id: Id)
    | AlreadyRegistered(id: Id)

  /** `NotFoundException`, `ContainerException`, and the `TypeError` PHP
      raises when a factory closure returns something that is not an object. */
  datatype Error =
    | NotFound(id: Id)
    | ContainerError(cause: Cause)
    | ReturnTypeError(id: Id)

  datatype Result<+T> = Ok(value: T) | Err(error: Error)

  /** An entry of the type mapping: an id to look up instead, or a factory. */
  datatype Mapping = Alias(target: Id) | Factory(definition: FactoryDefinition)

  /** The second argument of `set`: a class name or a closure. */
  datatype Registration = TypeName(name: Id) | Callable(closure: Closure)

  /** The container's state. `classes` stands for the classes PHP reflection
      can load and never changes; the next four are the container's fields;
      `nextRef` is the next allocation token. */
  datatype State = State(
    classes: map<Id, TypeDef>,
    resolvedEntries: map<Id, Value>,
    definitions: map<Id, TypeDef>,
    entriesBeingResolved: set<Id>,
    typeMapping: map<Id, Mapping>,
    nextRef: nat)

  /** The result of an operation together with the state it leaves. */
  datatype Outcome<+T> = Outcome(result: Result<T>, state: State)

  /** The container's invariant: the definitions cache only holds what
      reflection reports, and every memoized object was allocated before
      `nextRef`. */
  ghost predicate Consistent(s: State) {
    && (forall k :: k in s.definitions ==> k in s.classes && s.definitions[k] == s.classes[k])
    && (forall k :: k in s.resolvedEntries ==> Allocated(s.resolvedEntries[k], s.nextRef))
  }

  /** `v`, if it is an object of a class, was allocated before token `n`. */
  predicate Allocated(v: Value, n: nat) {
    v.Instance? ==> v.ref < n
  }

  /** `v` is the memoized entry for `key` in `t`. */
  predicate Memoized(t: State, key: Id, v: Value) {
    key in t.resolvedEntries && t.resolvedEntries[key] == v
  }

  /** How a state may change across any resolution: the reflection table,
      the type mapping and the in-flight set come back as they were; memo
      and definitions entries are never removed or overwritten; new memo
      entries are never for ids that were in flight; tokens only advance. */
  ghost predicate Evolves(s: State, t: State) {
    && t.classes == s.classes
    && t.typeMapping == s.typeMapping
    && t.entriesBeingResolved == s.entriesBeingResolved
    && (forall k :: k in s.resolvedEntries ==> Memoized(t, k, s.resolvedEntries[k]))
    && (forall k :: k in t.resolvedEntries && k !in s.resolvedEntries ==> k !in s.entriesBeingResolved)
    && (forall k :: k in s.definitions ==> k in t.definitions && t.definitions[k] == s.definitions[k])
    && s.nextRef <= t.nextRef
  }

  /** The id `get` uses after consulting the type mapping: an alias is
      followed exactly one step; anything else leaves the id as it is. */
  function Target(typeMapping: map<Id, Mapping>, id: Id): (key: Id) {
    if id in typeMapping && typeMapping[id].Alias? then typeMapping[id].target else id
  }

  /** The factory registered for `id` itself, if any. */
  function FactoryFor(typeMapping: map<Id, Mapping>, id: Id): (factory: Option<FactoryDefinition>) {
    if id in typeMapping && typeMapping[id].Factory? then Some(typeMapping[id].definition) else None
  }

  /** The ids whose resolution can recurse: known classes and mapped ids. */
  function Universe(s: State): (ids: set<Id>) {
    s.classes.Keys + s.typeMapping.Keys
  }

  /** The number of ids that could still be marked in flight. */
  function Pending(s: State): (n: nat) {
    |Universe(s) - s.entriesBeingResolved|
  }

  /** `Pending` as it was before `id` was marked in flight. */
  function PendingWithout(s: State, id: Id): (n: nat) {
    |Universe(s) - (s.entriesBeingResolved - {id})|
  }

  /** Marking a fresh id in flight and measuring without it gives back the
      original measure. */
  lemma MarkedPending(s: State, id: Id)
    requires id !in s.entriesBeingResolved
    ensures PendingWithout(s.(entriesBeingResolved := s.entriesBeingResolved + {id}), id) == Pending(s)
  {
    assert (s.entriesBeingResolved + {id}) - {id} == s.entriesBeingResolved;
  }

  /** While an id of the universe is in flight, the ids still to be marked
      are fewer than before it was marked. */
  lemma PendingDrops(s: State, id: Id)
    requires id in Universe(s) && id in s.entriesBeingResolved
    ensures Pending(s) < PendingWithout(s, id)
  {
    var u, f := Universe(s), s.entriesBeingResolved;
    assert u - (f - {id}) == (u - f) + {id};
    assert id !in u - f;
  }
}
