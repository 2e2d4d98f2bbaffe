/** The data the trap-space queries work on: variable names, prime
    implicants, subspaces, the query types, and the ways a query fails. */
module Network {
  import opened Basics

  type Name = string

  /** The items of a Python dict from names to activities, in the dict's
      iteration order (a prime implicant, or a subspace given by a caller). */
  type Entries = seq<(Name, int)>

  /** A subspace: the fixed variables and their activities. */
  type Subspace = map<Name, int>

  /** One prime implicant: a partial assignment, in dict order. */
  type Prime = Entries

  /** `primes[name]`: the primes that make `name` 0, then those that make it 1. */
  datatype PrimePair = PrimePair(off: seq<Prime>, on: seq<Prime>)

  /** The prime implicants of a network, keyed by variable name. */
  type PrimeTable = map<Name, PrimePair>

  /** `primes[name][value]` for value 0 or 1. */
  function PrimesFor(pp: PrimePair, value: int): seq<Prime>
    requires value == 0 || value == 1
  {
    if value == 0 then pp.off else pp.on
  }

  /** The names of the entries are pairwise distinct, as the keys of a dict are. */
  predicate UniqueNames(es: Entries)
  {
    forall i, j :: 0 <= i < j < |es| ==> es[i].0 != es[j].0
  }

  /** A Python dict from names to activities, as its items in iteration order. */
  type Dict = es: Entries | UniqueNames(es) witness []

  /** The names that occur in a list of entries. */
  function NamesOf(es: Entries): set<Name>
  {
    set e | e in es :: e.0
  }

  /** No later entry has the same name as entry `i`. */
  predicate LastWith(es: Entries, i: int)
    requires 0 <= i < |es|
  {
    forall j :: i < j < |es| ==> es[j].0 != es[i].0
  }

  /** `dict(es)`: every name of `es` maps to the value of its last entry. */
  function DictOf(es: Entries): (d: Subspace)
    ensures d.Keys == NamesOf(es)
    ensures forall i :: 0 <= i < |es| && LastWith(es, i) ==> d[es[i].0] == es[i].1
  {
    if es == [] then map[]
    else
      var init, last := es[..|es| - 1], es[|es| - 1];
      var d := DictOf(init)[last.0 := last.1];
      assert NamesOf(es) == NamesOf(init) + {last.0} by {
        assert es == init + [last];
      }
      assert forall i :: 0 <= i < |init| && LastWith(es, i) ==> LastWith(init, i);
      d
  }

  /** The query types a caller may ask for. */
  datatype QueryType = Max | Min | All | Percolated | Circuits

  /** The type names `potassco_handle` accepts; any other is refused. */
  function ParseQueryType(s: string): (r: Option<QueryType>)
    ensures r.Some? <==> s in {"max", "min", "all", "percolated", "circuits"}
  {
    if s == "max" then Some(Max)
    else if s == "min" then Some(Min)
    else if s == "all" then Some(All)
    else if s == "percolated" then Some(Percolated)
    else if s == "circuits" then Some(Circuits)
    else None
  }

  /** How a query ends when it does not return answers: the exits and
      exceptions of the Python code. */
  datatype Error =
    | UnknownType(typeName: string)
    | UnknownRepresentation(representation: string)
    | UnknownNames(names: set<Name>)
    | NotUnique(count: nat)
    | AssertionFailed
    | IndexError
    | ValueError
}
