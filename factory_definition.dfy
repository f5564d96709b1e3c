/** The factory record a `set` with a closure stores in the type mapping
    (src/FactoryDefinition.php). */
module FactoryDefinitions {

  /** A user-supplied closure, seen from outside: an identity, the number of
      positional arguments it requires, and whether what it returns is an
      object (the factory path declares an `object` return type). */
  datatype Closure = Closure(name: nat, required: nat, returnsObject: bool)

  /** A closure and the ordered class ids whose instances are passed to it.
      Both fields are fixed at construction; there are no mutators. */
  datatype FactoryDefinition = FactoryDefinition(factory: Closure, deps: seq<string> := []) {

    /** The closure that creates the entry. */
    function GetFactory(): (f: Closure) {
      factory
    }

    /** The ids to be resolved and injected into the closure, in order. */
    function GetDependencies(): (ds: seq<string>) {
      deps
    }
  }

  /** The getters hand back exactly what the constructor was given. */
  lemma GettersReturnConstructorArguments(f: Closure, deps: seq<string>)
    ensures FactoryDefinition(f, deps).GetFactory() == f
    ensures FactoryDefinition(f, deps).GetDependencies() == deps
  {
  }

  /** Without a dependency list the record holds the empty list. */
  lemma DependenciesDefaultToEmpty(f: Closure)
    ensures FactoryDefinition(f).GetDependencies() == []
    ensures FactoryDefinition(f) == FactoryDefinition(f, [])
  {
  }

  /** Two records are the same exactly when closure and dependency list are. */
  lemma DefinitionDeterminedByArguments(d: FactoryDefinition, e: FactoryDefinition)
    ensures d == e <==> d.GetFactory() == e.GetFactory() && d.GetDependencies() == e.GetDependencies()
  {
  }
}
