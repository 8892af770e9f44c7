/**
 * The shared vocabulary of the first-order learner: sorts, relation and
 * function symbols, constants, finite structures and labelled examples
 * (Common.kt). All of them are immutable values.
 */
module Common {

  datatype Option<T> = None | Some(value: T)

  /** A value, or the error that an exception of the source reports. */
  datatype Result<T, E> = Ok(value: T) | Err(error: E)

  /** A sort of the vocabulary, such as `Node`. */
  datatype FOLSort = FOLSort(name: string)

  /** A relation symbol with the sorts of its argument positions. */
  datatype FOLRelation = FOLRelation(name: string, signature: seq<string>) {
    /** One argument position per signature entry. */
    function Arity(): (n: nat)
      ensures n == |signature|
    {
      |signature|
    }
  }

  /** A function symbol: the signature lists the argument sorts followed by
      the result sort, so the arity counts the result position as well. */
  datatype FOLFunction = FOLFunction(name: string, signature: seq<string>) {
    function Arity(): (n: nat)
      ensures n == |signature|
    {
      |signature|
    }
  }

  /** A named element of a structure, tagged with its sort. */
  datatype FOLConstant = FOLConstant(name: string, sort: string)

  /** A tuple of constant names. */
  type Fact = seq<string>

  /** A finite structure: its constants, and per relation and function name
      the tuples that hold, in the order they were given. */
  datatype FOLStructure = FOLStructure(
    constants: seq<FOLConstant>,
    relationFacts: map<string, seq<Fact>>,
    functionFacts: map<string, seq<Fact>>)

  /** A structure given without function facts: they default to none. */
  function StructureOf(constants: seq<FOLConstant>, relationFacts: map<string, seq<Fact>>): (s: FOLStructure)
    ensures s.constants == constants && s.relationFacts == relationFacts
    ensures s.functionFacts == map[]
  {
    FOLStructure(constants, relationFacts, map[])
  }

  /** A structure with its label: true for a positive example. */
  datatype FOLExample = FOLExample(structure: FOLStructure, isPositive: bool)
}
