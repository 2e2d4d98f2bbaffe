/** `primes2asp`: the answer-set program that encodes the prime implicants
    of a network as hyper-arcs, the trap-space conditions as rules, and the
    query's bounds, extra constraints and show directives. */
module Encoder {
  import opened Basics
  import opened Strings
  import opened Order
  import opened Network

  // ---------------------------------------------------------------------
  // Building blocks of the program text

  /** A comment line, `% text`. */
  function Comment(text: string): string
  {
    "% " + text
  }

  /** A rule `head :- body.` */
  function Rule(head: string, body: string): string
  {
    head + " :- " + body + "."
  }

  /** A choice rule `{elements}.` */
  function Choice(elements: string): string
  {
    "{" + elements + "}."
  }

  /** The body of a rule: its literals separated by `, `. */
  function Conjunction(literals: seq<string>): string
  {
    Join(", ", literals)
  }

  /** An integrity constraint `:- body.` */
  function Constraint(body: string): string
  {
    ":- " + body + "."
  }

  /** One prime implicant as a hyper-arc: the variable and the value it
      forces, and the partial assignment that forces it. */
  datatype Arc = Arc(name: Name, value: int, prime: Prime)

  /** The identifier of the `k`-th arc, `a<k>`. */
  function ArcId(k: nat): string
  {
    "a" + NatToString(k)
  }

  const TargetOpen := "target(\""
  const SourceOpen := "source(\""
  const NameClose := "\","
  const FactClose := ")."

  /** `target("name",value,a<k>).` */
  function TargetFact(name: Name, value: int, k: nat): string
  {
    TargetOpen + name + NameClose + IntToString(value) + "," + ArcId(k) + FactClose
  }

  /** `source("name",value,a<k>).` for one entry of a prime. */
  function SourceFact(e: (Name, int), k: nat): string
  {
    SourceOpen + e.0 + NameClose + IntToString(e.1) + "," + ArcId(k) + FactClose
  }

  function SourceFacts(p: Prime, k: nat): (r: seq<string>)
    ensures |r| == |p|
  {
    seq(|p|, j requires 0 <= j < |p| => SourceFact(p[j], k))
  }

  lemma SourceFactsSnoc(p: Prime, j: nat, k: nat)
    requires j < |p|
    ensures SourceFacts(p[..j + 1], k) == SourceFacts(p[..j], k) + [SourceFact(p[j], k)]
  {
  }

  /** The line of the `k`-th arc: its target fact, then one source fact per
      entry of its prime, separated by spaces. */
  function ArcLine(a: Arc, k: nat): string
  {
    Join(" ", [TargetFact(a.name, a.value, k)] + SourceFacts(a.prime, k))
  }

  /** The arcs of the primes `ps` of `name` for `value`, in list order. */
  function Tagged(name: Name, value: int, ps: seq<Prime>): (r: seq<Arc>)
    ensures |r| == |ps|
  {
    if ps == [] then [] else Tagged(name, value, ps[..|ps| - 1]) + [Arc(name, value, ps[|ps| - 1])]
  }

  /** The arcs of one variable: those for value 0 before those for value 1. */
  function ArcsOf(primes: PrimeTable, name: Name): seq<Arc>
    requires name in primes
  {
    Tagged(name, 0, primes[name].off) + Tagged(name, 1, primes[name].on)
  }

  /** The arcs of the variables `names`, variable by variable. */
  function Arcs(primes: PrimeTable, names: seq<Name>): seq<Arc>
    requires forall n :: n in names ==> n in primes
  {
    if names == [] then []
    else Arcs(primes, names[..|names| - 1]) + ArcsOf(primes, names[|names| - 1])
  }

  /** Every arc of the network, the variables taken in sorted order. */
  function AllArcs(primes: PrimeTable): seq<Arc>
  {
    Arcs(primes, SortedKeys(primes.Keys))
  }

  /** The lines of `arcs`, the first numbered `first`, the next `first + 1`, ... */
  function NumberedLines(arcs: seq<Arc>, first: nat): (r: seq<string>)
    ensures |r| == |arcs|
  {
    seq(|arcs|, k requires 0 <= k < |arcs| => ArcLine(arcs[k], first + k))
  }

  /** The line of each arc, numbered from 1. */
  function ArcLines(arcs: seq<Arc>): (r: seq<string>)
    ensures |r| == |arcs|
  {
    NumberedLines(arcs, 1)
  }

  lemma NumberedLinesAppend(a: seq<Arc>, b: seq<Arc>, first: nat)
    ensures NumberedLines(a + b, first) == NumberedLines(a, first) + NumberedLines(b, first + |a|)
  {
  }

  lemma NumberedLinesSnoc(arcs: seq<Arc>, a: Arc, first: nat)
    ensures NumberedLines(arcs + [a], first) == NumberedLines(arcs, first) + [ArcLine(a, first + |arcs|)]
  {
  }

  lemma TaggedSnoc(name: Name, value: int, ps: seq<Prime>, j: nat)
    requires j < |ps|
    ensures Tagged(name, value, ps[..j + 1]) == Tagged(name, value, ps[..j]) + [Arc(name, value, ps[j])]
  {
    assert ps[..j + 1][..j] == ps[..j];
  }

  // ---------------------------------------------------------------------
  // The fixed parts of the program

  const CreatedOn := "created on "
  const UsingPyBoolNet := " using PyBoolNet"
  const AvailableAt := "PyBoolNet is available at https://github.com/hklarner/PyBoolNet"
  const ArcsNote := "encoding of prime implicants as hyper-arcs that consist of a unique \"target\" and (possibly) several \"sources\"."
  const TripletsNote := "\"target\" and \"source\" are triplets that consist of a variable name, an activity and a unique arc-identifier. "

  /** The six lines that open the program. */
  function Header(date: string): seq<string>
  {
    [Comment(CreatedOn + date + UsingPyBoolNet), Comment(AvailableAt), "", Comment(ArcsNote), Comment(TripletsNote), ""]
  }

  const GeneratorRule := Choice("in_set(ID) : target(V,S,ID)")
  const ConsistencyRule := Constraint(Conjunction(["in_set(ID1)", "in_set(ID2)", "target(V,1,ID1)", "target(V,0,ID2)"]))
  const StabilityRule := Constraint(Conjunction(["in_set(ID1)", "source(V,S,ID1)", "not in_set(ID2) : target(V,S,ID2)"]))
  const PercolationRule := Rule("in_set(ID)", Conjunction(["target(V,S,ID)", "hit(V1,S1) : source(V1,S1,ID)"]))
  const BijectionRule := Rule("in_set(ID)", Conjunction(["target(V,S,ID)", "hit(V,S)", "hit(V1,S1) : source(V1,S1,ID)"]))
  const UpstreamRule := Rule("upstream(V1,V2)", Conjunction(["in_set(ID)", "target(V1,S1,ID)", "source(V2,S2,ID)"]))
  const UpstreamClosureRule := Rule("upstream(V1,V2)", Conjunction(["upstream(V1,V3)", "upstream(V3,V2)"]))
  const PercolatedRule := Rule("percolated(V1)", Conjunction(["hit(V1,S)", "not upstream(V1,V1)"]))
  const HitRule := Rule("hit(V,S)", Conjunction(["in_set(ID)", "target(V,S,ID)"]))

  const GeneratorNote := "generator: \"in_set(ID)\" specifies which arcs are chosen for a trap set (ID is unique for target(_,_,_))."
  const ConsistencyNote := "consistency constraint"
  const StabilityNote := "stability constraint"
  const PercolationNote := "percolation constraint."
  const PercolationNote2 := "ensure that if all sources of a prime are hit then it must belong to the solution."
  const BijectionNote := "bijection constraint (between asp solutions and trap spaces)"
  const BijectionNote2 := "to avoid the repetition of equivalent solutions we add all prime implicants"
  const BijectionNote3 := "that agree with the current solution."
  const CircuitsNote := "circuits constraint, distinguishes between circuit nodes and percolated nodes"
  const HitNote := "\"hit\" captures the stable variables and their activities."

  const GeneratorLines: seq<string> :=
    [Comment(GeneratorNote), GeneratorRule, "", Comment(ConsistencyNote), ConsistencyRule, "",
     Comment(StabilityNote), StabilityRule, ""]

  const PercolationLines: seq<string> := [Comment(PercolationNote), Comment(PercolationNote2), PercolationRule]

  const BijectionLines: seq<string> :=
    [Comment(BijectionNote), Comment(BijectionNote2), Comment(BijectionNote3), BijectionRule]

  const CircuitLines: seq<string> := ["", Comment(CircuitsNote), UpstreamRule, UpstreamClosureRule, PercolatedRule]

  const HitLines: seq<string> := ["", Comment(HitNote), HitRule]

  /** The percolation rule closes the selection for percolated trap spaces
      and circuits; every other type gets the bijection rule. */
  predicate UsesPercolation(t: Option<QueryType>)
  {
    t == Some(Percolated) || t == Some(Circuits)
  }

  /** The rule that closes the selection of arcs. */
  function ClosureLines(t: Option<QueryType>): seq<string>
  {
    if UsesPercolation(t) then PercolationLines else BijectionLines
  }

  /** The rules that tell circuit nodes from percolated ones, for circuits only. */
  function CircuitSection(t: Option<QueryType>): seq<string>
  {
    if t == Some(Circuits) then CircuitLines else []
  }

  /** The rules of the program, after the hyper-arcs. */
  function RuleLines(t: Option<QueryType>): seq<string>
  {
    GeneratorLines + ClosureLines(t) + CircuitSection(t) + HitLines
  }

  // ---------------------------------------------------------------------
  // Bounds

  const HitsAbove := "{hit(V,S)} "
  const HitsBelow := " {hit(V,S)}"

  /** `:- {hit(V,S)} k.`: k or fewer fixed variables is refused. */
  function LowerBoundLine(k: int): string
  {
    Constraint(HitsAbove + IntToString(k))
  }

  /** `:- k {hit(V,S)}.`: k or more fixed variables is refused. */
  function UpperBoundLine(k: int): string
  {
    Constraint(IntToString(k) + HitsBelow)
  }

  /** The cardinality constraints the bounds `(lo, hi)` call for. */
  function BoundConstraints(bounds: Option<(int, int)>): seq<string>
  {
    match bounds
    case None => []
    case Some((lo, hi)) =>
      (if lo > 0 then [LowerBoundLine(lo - 1)] else []) + [UpperBoundLine(hi + 1)]
  }

  /** `repr((lo, hi))` */
  function ReprBounds(lo: int, hi: int): string
  {
    "(" + IntToString(lo) + ", " + IntToString(hi) + ")"
  }

  const BoundsNote := "cardinality constraint (enforced by \"Bounds="
  const NoteClose := "\")"

  function BoundComment(lo: int, hi: int): string
  {
    Comment(BoundsNote + ReprBounds(lo, hi) + NoteClose)
  }

  /** The bounds section: a blank line, a comment, the constraints. */
  function BoundLines(bounds: Option<(int, int)>): seq<string>
  {
    match bounds
    case None => []
    case Some((lo, hi)) => ["", BoundComment(lo, hi)] + BoundConstraints(bounds)
  }

  // ---------------------------------------------------------------------
  // Projection and show directives

  /** `[x for x in project if x in primes]`, in the order of `project`. */
  function KeepKnown(project: seq<Name>, primes: PrimeTable): (r: seq<Name>)
    ensures forall n :: n in r <==> n in project && n in primes
    ensures |r| <= |project|
  {
    if project == [] then []
    else
      var last := project[|project| - 1];
      assert project == project[..|project| - 1] + [last];
      KeepKnown(project[..|project| - 1], primes) + (if last in primes then [last] else [])
  }

  /** The projection after `primes2asp` drops the unknown names; no
      projection at all behaves like an empty one. */
  function Kept(project: Option<seq<Name>>, primes: PrimeTable): seq<Name>
  {
    match project
    case None => []
    case Some(p) => KeepKnown(p, primes)
  }

  /** `repr(names)` for a list of plain names. */
  function ReprNames(names: seq<Name>): string
  {
    "[" + Join(", ", Quoted(names)) + "]"
  }

  function Quoted(names: seq<Name>): (r: seq<string>)
    ensures |r| == |names|
  {
    if names == [] then [] else ["'" + names[0] + "'"] + Quoted(names[1..])
  }

  const ShowHitOpen := "#show hit(\""
  const ShowHitMiddle := "\",S) : hit(\""
  const ShowHitClose := "\",S)."

  /** `#show hit("n",S) : hit("n",S).` */
  function ShowLine(n: Name): string
  {
    ShowHitOpen + n + ShowHitMiddle + n + ShowHitClose
  }

  function ShowNameLines(names: seq<Name>): (r: seq<string>)
    ensures |r| == |names|
    ensures forall k :: 0 <= k < |names| ==> r[k] == ShowLine(names[k])
  {
    if names == [] then [] else ShowNameLines(names[..|names| - 1]) + [ShowLine(names[|names| - 1])]
  }

  const ProjectNote := "show projection (enforced by \"Project="
  const ProjectNoteClose := "\")."
  const CircuitsShowNote := "show fixed nodes and distinguish between circuits and percolated"
  const FixedShowNote := "show fixed nodes"
  const ShowNothing := "#show."
  const ShowPercolated := "#show percolated/1."
  const ShowHits := "#show hit/2."

  function ProjectionComment(kept: seq<Name>): string
  {
    Comment(ProjectNote + ReprNames(Sort(kept)) + ProjectNoteClose)
  }

  /** The comment that opens the show section. */
  function ShowComment(kept: seq<Name>, t: Option<QueryType>): string
  {
    if kept != [] then ProjectionComment(kept)
    else if t == Some(Circuits) then Comment(CircuitsShowNote)
    else Comment(FixedShowNote)
  }

  /** The show directives: `#show.` and one per kept name for a projection,
      otherwise what the query type shows. */
  function Shown(kept: seq<Name>, t: Option<QueryType>): seq<string>
  {
    if kept != [] then [ShowNothing] + ShowNameLines(kept)
    else if t == Some(Circuits) then [ShowPercolated, ShowHits]
    else [ShowHits]
  }

  /** The show section: a blank line, the comment, the directives. */
  function ShowLines(kept: seq<Name>, t: Option<QueryType>): seq<string>
  {
    ["", ShowComment(kept, t)] + Shown(kept, t)
  }

  // ---------------------------------------------------------------------
  // The whole program

  /** The sections of the program in the order `primes2asp` writes them:
      the header, the hyper-arcs, a blank line, the rules, the bounds, the
      caller's extra lines and the show directives. */
  function Assemble(header: seq<string>, arcs: seq<string>, rules: seq<string>, bounds: seq<string>,
                    extra: seq<string>, show: seq<string>): seq<string>
  {
    header + arcs + [""] + rules + bounds + extra + show
  }

  /** The lines of the program `primes2asp` writes for the given prime
      implicants, resolved bounds, projection, type and extra lines. */
  function Encoding(primes: PrimeTable, bounds: Option<(int, int)>, project: Option<seq<Name>>,
                    t: Option<QueryType>, extra: seq<string>, date: string): seq<string>
  {
    Assemble(Header(date), ArcLines(AllArcs(primes)), RuleLines(t), BoundLines(bounds),
             extra, ShowLines(Kept(project, primes), t))
  }

  /** The program text: its lines joined by newlines. */
  function AspText(lines: seq<string>): string
  {
    Join("\n", lines)
  }

  // ---------------------------------------------------------------------
  // The encoder as the source runs it

  /** The arcs of `name` for the values below `value` (0, 1 or 2). */
  function ArcsBelow(primes: PrimeTable, name: Name, value: int): seq<Arc>
    requires name in primes && 0 <= value <= 2
  {
    if value == 0 then []
    else if value == 1 then Tagged(name, 0, primes[name].off)
    else ArcsOf(primes, name)
  }

  /** The line of one prime implicant: the target fact, then a source fact
      per entry of the prime, all under the identifier `a<index>`. */
  method EncodeArc(name: Name, value: int, p: Prime, index: nat) returns (line: string)
    ensures line == ArcLine(Arc(name, value, p), index)
  {
    var hyper := [TargetFact(name, value, index)];
    for k := 0 to |p|
      invariant hyper == [TargetFact(name, value, index)] + SourceFacts(p[..k], index)
    {
      SourceFactsSnoc(p, k, index);
      hyper := hyper + [SourceFact(p[k], index)];
    }
    assert p[..|p|] == p;
    line := Join(" ", hyper);
  }

  /** The lines of the primes `ps` that make `name` equal `value`, the
      running index advanced once per prime. */
  method EncodePrimes(name: Name, value: int, ps: seq<Prime>, index0: nat) returns (lines: seq<string>, index: nat)
    ensures index == index0 + |ps|
    ensures lines == NumberedLines(Tagged(name, value, ps), index0 + 1)
  {
    lines, index := [], index0;
    for j := 0 to |ps|
      invariant index == index0 + j
      invariant lines == NumberedLines(Tagged(name, value, ps[..j]), index0 + 1)
    {
      index := index + 1;
      var line := EncodeArc(name, value, ps[j], index);
      TaggedSnoc(name, value, ps, j);
      NumberedLinesSnoc(Tagged(name, value, ps[..j]), Arc(name, value, ps[j]), index0 + 1);
      lines := lines + [line];
    }
    assert ps[..|ps|] == ps;
  }

  lemma ArcsBelowStep(primes: PrimeTable, name: Name, value: int)
    requires name in primes && (value == 0 || value == 1)
    ensures ArcsBelow(primes, name, value + 1)
         == ArcsBelow(primes, name, value) + Tagged(name, value, PrimesFor(primes[name], value))
  {
    if value == 0 {
      assert [] + Tagged(name, 0, primes[name].off) == Tagged(name, 0, primes[name].off);
    }
  }

  lemma ArcsSnoc(primes: PrimeTable, names: seq<Name>, i: nat)
    requires i < |names| && forall n :: n in names ==> n in primes
    ensures Arcs(primes, names[..i + 1]) == Arcs(primes, names[..i]) + ArcsOf(primes, names[i])
  {
    assert names[..i + 1][..i] == names[..i];
  }

  /** The lines of the first `i + 1` variables extend those of the first `i`
      by the lines of variable `i`, numbered on from the arcs before it. */
  lemma ArcLinesSnoc(primes: PrimeTable, names: seq<Name>, i: nat)
    requires i < |names| && forall n :: n in names ==> n in primes
    ensures ArcLines(Arcs(primes, names[..i + 1]))
         == ArcLines(Arcs(primes, names[..i])) + NumberedLines(ArcsOf(primes, names[i]), |Arcs(primes, names[..i])| + 1)
  {
    ArcsSnoc(primes, names, i);
    NumberedLinesAppend(Arcs(primes, names[..i]), ArcsOf(primes, names[i]), 1);
  }

  /** The lines of the primes of one variable: those for 0, then those for 1. */
  method EncodeVariable(primes: PrimeTable, name: Name, index0: nat) returns (lines: seq<string>, index: nat)
    requires name in primes
    ensures index == index0 + |ArcsOf(primes, name)|
    ensures lines == NumberedLines(ArcsOf(primes, name), index0 + 1)
  {
    lines, index := [], index0;
    for value := 0 to 2
      invariant index == index0 + |ArcsBelow(primes, name, value)|
      invariant lines == NumberedLines(ArcsBelow(primes, name, value), index0 + 1)
    {
      ghost var below := ArcsBelow(primes, name, value);
      var ps := PrimesFor(primes[name], value);
      var more;
      more, index := EncodePrimes(name, value, ps, index);
      NumberedLinesAppend(below, Tagged(name, value, ps), index0 + 1);
      ArcsBelowStep(primes, name, value);
      lines := lines + more;
    }
  }

  /** The hyper-arc lines: the variables in sorted order, for each the
      primes for 0 before those for 1, numbered by a running index. */
  method EncodeArcs(primes: PrimeTable) returns (lines: seq<string>)
    ensures lines == ArcLines(AllArcs(primes))
  {
    lines := [];
    var names := SortedKeys(primes.Keys);
    var index := 0;
    for i := 0 to |names|
      invariant index == |Arcs(primes, names[..i])|
      invariant lines == ArcLines(Arcs(primes, names[..i]))
    {
      var more;
      more, index := EncodeVariable(primes, names[i], index);
      ArcLinesSnoc(primes, names, i);
      ArcsSnoc(primes, names, i);
      lines := lines + more;
    }
    assert names[..|names|] == names;
  }

  /** The rules after the hyper-arcs, as `primes2asp` adds them for `t`. */
  method EncodeRules(t: Option<QueryType>) returns (rules: seq<string>)
    ensures rules == RuleLines(t)
  {
    rules := GeneratorLines;
    if t == Some(Percolated) || t == Some(Circuits) {
      rules := rules + PercolationLines;
    } else {
      rules := rules + BijectionLines;
    }
    if t == Some(Circuits) {
      rules := rules + CircuitLines;
    } else {
      assert rules + [] == rules;
    }
    rules := rules + HitLines;
  }

  /** The bounds section: none without bounds; otherwise the comment, the
      lower constraint when `lo > 0`, and always the upper constraint. */
  method EncodeBounds(bounds: Option<(int, int)>) returns (lines: seq<string>)
    ensures lines == BoundLines(bounds)
  {
    lines := [];
    if bounds.Some? {
      var (lo, hi) := bounds.value;
      var constraints := [];
      if lo > 0 {
        constraints := constraints + [LowerBoundLine(lo - 1)];
      }
      constraints := constraints + [UpperBoundLine(hi + 1)];
      lines := ["", BoundComment(lo, hi)] + constraints;
    }
  }

  /** The show section for the kept projection and the type. */
  method EncodeShow(kept: seq<Name>, t: Option<QueryType>) returns (lines: seq<string>)
    ensures lines == ShowLines(kept, t)
  {
    if kept != [] {
      lines := ["", ProjectionComment(kept)];
      lines := lines + [ShowNothing];
      lines := lines + ShowNameLines(kept);
      assert lines == ["", ProjectionComment(kept)] + ([ShowNothing] + ShowNameLines(kept));
    } else if t == Some(Circuits) {
      lines := ["", Comment(CircuitsShowNote), ShowPercolated, ShowHits];
    } else {
      lines := ["", Comment(FixedShowNote), ShowHits];
    }
  }

  /** `primes2asp`: collects the lines section by section and returns
      them joined by newlines. */
  method Primes2Asp(primes: PrimeTable, bounds: Option<(int, int)>, project: Option<seq<Name>>,
                    t: Option<QueryType>, extra: seq<string>, date: string) returns (text: string)
    ensures text == AspText(Encoding(primes, bounds, project, t, extra, date))
  {
    var kept := Kept(project, primes);
    var arcLines := EncodeArcs(primes);
    var rules := EncodeRules(t);
    var boundLines := EncodeBounds(bounds);
    var show := EncodeShow(kept, t);
    var lines := Assemble(Header(date), arcLines, rules, boundLines, extra, show);
    text := AspText(lines);
  }
}
