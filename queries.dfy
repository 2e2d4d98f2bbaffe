/** The query layer of the trap-space module: `potassco_handle`, which
    checks a request, resolves its bounds, chooses the solver's options,
    writes the program, hands it to the solver and decodes the answers;
    and the public queries, each of which builds one request.

    The solver pipeline (gringo piped into clasp) and the helpers that live
    in other modules of the package (`active_primes`, `subspace2dict`,
    `subspace2str`) are not modelled: a query receives them as the
    functions of an `Env`, with the date the program's header records. */
module Queries {
  import opened Basics
  import opened Strings
  import opened Network
  import opened Lines
  import opened Encoder
  import opened EncoderFacts
  import Decoder

  /** The collaborators of a query. `solve` takes the program text and
      clasp's arguments and gives clasp's standard output. */
  datatype Env = Env(
    solve: (string, seq<string>) -> string,
    activePrimes: (PrimeTable, Subspace) -> PrimeTable,
    toDict: (PrimeTable, string) -> Dict,
    toStr: (PrimeTable, Subspace) -> string,
    date: string)

  /** The default of `max_output`. */
  const DefaultMaxOutput := 1000

  // ---------------------------------------------------------------------
  // Requests

  /** One end of a bound as a caller writes it: a number, or `"n"`, which
      stands for the number of variables. */
  datatype BoundEnd = Num(k: int) | AllVars

  function ResolveEnd(e: BoundEnd, n: nat): int
  {
    match e
    case Num(k) => k
    case AllVars => n
  }

  /** The bounds after `potassco_handle` replaces each `"n"` by the number
      of variables of the primes it was given. */
  function ResolveBounds(bounds: Option<(BoundEnd, BoundEnd)>, primes: PrimeTable): (r: Option<(int, int)>)
    ensures r.Some? <==> bounds.Some?
    ensures bounds == Some((AllVars, AllVars)) ==> r == Some((|primes|, |primes|))
    ensures forall lo, hi :: bounds == Some((Num(lo), Num(hi))) ==> r == Some((lo, hi))
  {
    match bounds
    case None => None
    case Some((lo, hi)) => Some((ResolveEnd(lo, |primes|), ResolveEnd(hi, |primes|)))
  }

  /** The arguments of one call of `potassco_handle`; no extra lines is
      the same as `extra_lines=None`. */
  datatype Request = Request(
    primes: PrimeTable,
    typeName: string,
    bounds: Option<(BoundEnd, BoundEnd)>,
    project: Option<seq<Name>>,
    maxOutput: int,
    representation: string,
    extra: seq<string>)

  const ModelsOption := "--models="
  const ProjectOption := "--project"
  const DomRecOption := "--enum-mode=domRec"
  const DomainOption := "--heuristic=Domain"
  const MaxModifier := "--dom-mod=5,16"
  const MinModifier := "--dom-mod=3,16"

  /** clasp's arguments: the number of models, `--project`, and for the
      maximal and minimal types the domain heuristic that enumerates
      subset-maximal (sign modifier 5) or subset-minimal (3) answers. */
  function ClaspArguments(maxOutput: int, t: QueryType): (r: seq<string>)
    ensures |r| >= 2 && r[0] == ModelsOption + IntToString(maxOutput) && r[1] == ProjectOption
    ensures DomRecOption in r <==> t == Max || t == Min
    ensures DomainOption in r <==> t == Max || t == Min
    ensures MaxModifier in r <==> t == Max
    ensures MinModifier in r <==> t == Min
  {
    var models := ModelsOption + IntToString(maxOutput);
    assert models[2] == 'm' && ProjectOption[2] == 'p';
    assert DomRecOption[2] == 'e' && DomainOption[2] == 'h' && MaxModifier[2] == 'd';
    assert MaxModifier[10] != MinModifier[10];
    [models, ProjectOption]
    + (if t == Max then [DomRecOption, DomainOption, MaxModifier]
       else if t == Min then [DomRecOption, DomainOption, MinModifier]
       else [])
  }

  /** The lines of the program written for a request of type `t`. */
  function Program(req: Request, t: QueryType, date: string): seq<string>
  {
    Encoding(req.primes, ResolveBounds(req.bounds, req.primes), req.project, Some(t), req.extra, date)
  }

  /** What clasp prints for a request of type `t`. */
  function SolverOutput(env: Env, req: Request, t: QueryType): string
  {
    env.solve(AspText(Program(req, t, env.date)), ClaspArguments(req.maxOutput, t))
  }

  /** The cardinality constraints of a request's program: those its
      resolved bounds call for, then those among its extra lines. */
  lemma ProgramCardinality(req: Request, t: QueryType, date: string)
    ensures Select(Program(req, t, date), CardinalityConstraint)
            == BoundConstraints(ResolveBounds(req.bounds, req.primes)) + Select(req.extra, CardinalityConstraint)
  {
    CardinalityConstraints(req.primes, ResolveBounds(req.bounds, req.primes), req.project, Some(t), req.extra, date);
  }

  /** The show directives of a request's program: those among its extra
      lines, then those its projection or type calls for. */
  lemma ProgramShows(req: Request, t: QueryType, date: string)
    ensures Select(Program(req, t, date), ShowDirective)
            == Select(req.extra, ShowDirective) + Shown(Kept(req.project, req.primes), Some(t))
  {
    ShowDirectives(req.primes, ResolveBounds(req.bounds, req.primes), req.project, Some(t), req.extra, date);
  }

  // ---------------------------------------------------------------------
  // potassco_handle

  /** One answer as a query returns it. */
  datatype Answer =
    | AsDict(solution: Decoder.Solution)
    | AsStr(text: string)
    | AsStrPair(circ: string, perc: string)

  /** An answer in the requested representation; `subspace2str` is given
      the primes of the request. */
  function Render(env: Env, primes: PrimeTable, representation: string, s: Decoder.Solution): (r: Answer)
    ensures r.AsDict? <==> representation == "dict"
    ensures r.AsDict? ==> r.solution == s
    ensures r.AsStrPair? <==> representation != "dict" && s.CircuitSpace?
  {
    if representation == "dict" then AsDict(s)
    else match s
      case Space(d) => AsStr(env.toStr(primes, d))
      case CircuitSpace(c, p) => AsStrPair(env.toStr(primes, c), env.toStr(primes, p))
  }

  function RenderAll(env: Env, primes: PrimeTable, representation: string, sols: seq<Decoder.Solution>): (r: seq<Answer>)
    ensures |r| == |sols|
    ensures forall k :: 0 <= k < |r| ==> (r[k].AsDict? <==> representation == "dict")
  {
    seq(|sols|, k requires 0 <= k < |sols| => Render(env, primes, representation, sols[k]))
  }

  /** `max_output` as a cap on the number of answers. */
  function Cap(maxOutput: int): nat
  {
    if maxOutput < 0 then 0 else maxOutput
  }

  /** `potassco_handle`: an unknown type, then an unknown representation,
      ends the query; otherwise the program goes to clasp and its output
      is read back. */
  function PotasscoHandle(env: Env, req: Request): (r: Result<seq<Answer>, Error>)
    ensures ParseQueryType(req.typeName).None? ==> r == Failure(UnknownType(req.typeName))
    ensures ParseQueryType(req.typeName).Some? && req.representation != "str" && req.representation != "dict"
            ==> r == Failure(UnknownRepresentation(req.representation))
    ensures r.Success? ==> ParseQueryType(req.typeName).Some?
    ensures r.Success? ==> |r.value| <= Cap(req.maxOutput)
    ensures r.Success? ==> forall k :: 0 <= k < |r.value| ==> (r.value[k].AsDict? <==> req.representation == "dict")
    ensures r.Failure? && ParseQueryType(req.typeName).Some? && (req.representation == "str" || req.representation == "dict")
            ==> Decoder.DecodeError(r.error)
    ensures r.Failure? ==> r.error.UnknownType? || r.error.UnknownRepresentation? || Decoder.DecodeError(r.error)
  {
    match ParseQueryType(req.typeName)
    case None => Failure(UnknownType(req.typeName))
    case Some(t) =>
      if req.representation != "str" && req.representation != "dict" then
        Failure(UnknownRepresentation(req.representation))
      else
        ReadAnswers(env, req, t, SolverOutput(env, req, t))
  }

  /** What `potassco_handle` makes of clasp's output for a request of type
      `t`: the output cut into lines, the answers decoded, at most
      `max_output` of them, then put in the requested representation. */
  function ReadAnswers(env: Env, req: Request, t: QueryType, out: string): (r: Result<seq<Answer>, Error>)
    ensures r.Success? ==> |r.value| <= Cap(req.maxOutput)
    ensures r.Success? ==> forall k :: 0 <= k < |r.value| ==> (r.value[k].AsDict? <==> req.representation == "dict")
    ensures r.Failure? ==> Decoder.DecodeError(r.error)
  {
    var lines := Split(out, '\n');
    Decoder.DecodeAtMost(lines, t == QueryType.Circuits, req.maxOutput);
    var sols :- Decoder.Decode(lines, t == QueryType.Circuits, req.maxOutput);
    Success(RenderAll(env, req.primes, req.representation, sols))
  }

  /** Whatever clasp prints before and after its answers, the answers of
      the types other than circuits come back as the subspaces they print,
      the first `max_output` of them, in clasp's order. */
  lemma ReadAnswersRoundTrip(env: Env, req: Request, t: QueryType, pre: seq<string>, ss: seq<Entries>, post: seq<string>)
    requires t != QueryType.Circuits && req.representation == "dict"
    requires OtherLines(pre) && Decoder.AllPlain(ss) && OtherLines(post)
    ensures ReadAnswers(env, req, t, Join("\n", pre + Decoder.AnswerBlock(Decoder.PrintedHitLines(ss)) + post))
            == Success(RenderAll(env, req.primes, "dict", Decoder.Spaces(ss)[..Decoder.Within(req.maxOutput, |ss|)]))
  {
    var out := Join("\n", pre + Decoder.AnswerBlock(Decoder.PrintedHitLines(ss)) + post);
    OtherLinesAt(pre);
    OtherLinesAt(post);
    OutputDecodes(pre, ss, post, req.maxOutput);
    ReadDecoded(env, req, t, out, Decoder.Spaces(ss)[..Decoder.Within(req.maxOutput, |ss|)]);
  }

  lemma ReadDecoded(env: Env, req: Request, t: QueryType, out: string, sols: seq<Decoder.Solution>)
    requires Decoder.Decode(Split(out, '\n'), t == QueryType.Circuits, req.maxOutput) == Success(sols)
    ensures ReadAnswers(env, req, t, out) == Success(RenderAll(env, req.primes, req.representation, sols))
  {
  }

  /** The text of such an output decodes to the subspaces of its answers. */
  lemma OutputDecodes(pre: seq<string>, ss: seq<Entries>, post: seq<string>, m: int)
    requires forall k :: 0 <= k < |pre| ==> OtherLine(pre[k])
    requires Decoder.AllPlain(ss)
    requires forall k :: 0 <= k < |post| ==> OtherLine(post[k])
    ensures Decoder.Decode(Split(Join("\n", pre + Decoder.AnswerBlock(Decoder.PrintedHitLines(ss)) + post), '\n'), false, m)
            == Success(Decoder.Spaces(ss)[..Decoder.Within(m, |ss|)])
  {
    var lines := pre + Decoder.AnswerBlock(Decoder.PrintedHitLines(ss)) + post;
    Decoder.DecodeRoundTrip(pre, ss, post, m);
    OutputLines(pre, ss, post);
    SplitOutput(lines);
  }

  /** Splitting the joined lines gives them back, or the one empty line
      when there were none. */
  lemma SplitOutput(lines: seq<string>)
    requires forall k :: 0 <= k < |lines| ==> '\n' !in lines[k]
    ensures Split(Join("\n", lines), '\n') == if lines == [] then [""] else lines
  {
    if lines != [] {
      SplitJoin(lines, '\n');
    }
  }


  /** A line clasp prints that is neither an answer marker nor broken. */
  predicate OtherLine(l: string)
  {
    !Decoder.IsAnswerMarker(l) && '\n' !in l
  }

  /** Lines none of which is an answer marker or holds a newline. */
  predicate OtherLines(ls: seq<string>)
  {
    ls == [] || (OtherLine(ls[0]) && OtherLines(ls[1..]))
  }

  lemma {:induction false} OtherLinesAt(ls: seq<string>)
    requires OtherLines(ls)
    ensures forall k :: 0 <= k < |ls| ==> OtherLine(ls[k])
    decreases |ls|
  {
    if ls != [] {
      OtherLinesAt(ls[1..]);
      assert forall k :: 1 <= k < |ls| ==> ls[k] == ls[1..][k - 1];
    }
  }

  lemma HitLineSingle(es: Entries)
    requires Decoder.PlainEntries(es)
    ensures '\n' !in Decoder.HitLine(es)
  {
    forall k | 0 <= k < |es| ensures '\n' !in Decoder.HitTokens(es)[k] {
      Decoder.HitTokensAt(es, k);
      Decoder.HitTokenWord(es[k].0, es[k].1);
      assert IsSpace('\n');
    }
    JoinExcludes(" ", Decoder.HitTokens(es), '\n');
  }

  lemma {:induction false} AnswerBlockSingle(ss: seq<Entries>)
    requires Decoder.AllPlain(ss)
    ensures forall k :: 0 <= k < |Decoder.AnswerBlock(Decoder.PrintedHitLines(ss))|
              ==> '\n' !in Decoder.AnswerBlock(Decoder.PrintedHitLines(ss))[k]
    decreases |ss|
  {
    if ss != [] {
      Decoder.AllPlainTail(ss);
      AnswerBlockSingle(ss[1..]);
      HitLineSingle(ss[0]);
      var hs := Decoder.PrintedHitLines(ss);
      assert hs[1..] == Decoder.PrintedHitLines(ss[1..]);
      assert Decoder.AnswerBlock(hs) == [Decoder.AnswerMarker + ":", hs[0]] + Decoder.AnswerBlock(hs[1..]);
    }
  }

  lemma OutputLines(pre: seq<string>, ss: seq<Entries>, post: seq<string>)
    requires forall k :: 0 <= k < |pre| ==> OtherLine(pre[k])
    requires Decoder.AllPlain(ss)
    requires forall k :: 0 <= k < |post| ==> OtherLine(post[k])
    ensures var lines := pre + Decoder.AnswerBlock(Decoder.PrintedHitLines(ss)) + post;
      forall k :: 0 <= k < |lines| ==> '\n' !in lines[k]
  {
    AnswerBlockSingle(ss);
  }

  // ---------------------------------------------------------------------
  // The queries without a subspace

  /** `trap_spaces`: the trap spaces of the given type; the maximal ones
      are asked for with at least one fixed variable. */
  function TrapSpacesRequest(primes: PrimeTable, option: string, maxOutput: int, representation: string): Request
  {
    Request(primes, option, if option == "max" then Some((Num(1), AllVars)) else None, None,
            maxOutput, representation, [])
  }

  function TrapSpaces(env: Env, primes: PrimeTable, option: string, maxOutput: int, representation: string): (r: Result<seq<Answer>, Error>)
    ensures r.Success? ==> |r.value| <= Cap(maxOutput)
    ensures ParseQueryType(option).None? ==> r == Failure(UnknownType(option))
    ensures r.Failure? ==> r.error.UnknownType? || r.error.UnknownRepresentation? || Decoder.DecodeError(r.error)
  {
    PotasscoHandle(env, TrapSpacesRequest(primes, option, maxOutput, representation))
  }

  /** The program of `trap_spaces` refuses the empty trap space exactly for
      the maximal type (`:- {hit(V,S)} 0.`), and bounds the number of fixed
      variables by the number of variables then; it has no other
      cardinality constraint, and shows the `hit` atoms. */
  lemma TrapSpacesProgram(primes: PrimeTable, option: string, t: QueryType, maxOutput: int, representation: string, date: string)
    requires ParseQueryType(option) == Some(t)
    ensures var p := Program(TrapSpacesRequest(primes, option, maxOutput, representation), t, date);
      && Select(p, CardinalityConstraint)
         == (if option == "max" then [LowerBoundLine(0), UpperBoundLine(|primes| + 1)] else [])
      && Select(p, ShowDirective)
         == (if t == QueryType.Circuits then [ShowPercolated, ShowHits] else [ShowHits])
  {
    var req := TrapSpacesRequest(primes, option, maxOutput, representation);
    TrapSpacesPlan(primes, option, t, maxOutput, representation);
    ProgramCardinality(req, t, date);
    ProgramShows(req, t, date);
  }

  lemma TrapSpacesPlan(primes: PrimeTable, option: string, t: QueryType, maxOutput: int, representation: string)
    ensures var req := TrapSpacesRequest(primes, option, maxOutput, representation);
      && BoundConstraints(ResolveBounds(req.bounds, req.primes)) + Select(req.extra, CardinalityConstraint)
         == (if option == "max" then [LowerBoundLine(0), UpperBoundLine(|primes| + 1)] else [])
      && Select(req.extra, ShowDirective) + Shown(Kept(req.project, req.primes), Some(t))
         == (if t == QueryType.Circuits then [ShowPercolated, ShowHits] else [ShowHits])
  {
    var req := TrapSpacesRequest(primes, option, maxOutput, representation);
    AppendEmpty(BoundConstraints(ResolveBounds(req.bounds, primes)));
  }

  /** `steady_states`: the trap spaces of type all that fix every variable. */
  function SteadyStatesRequest(primes: PrimeTable, maxOutput: int, representation: string): Request
  {
    Request(primes, "all", Some((AllVars, AllVars)), Some([]), maxOutput, representation, [])
  }

  function SteadyStates(env: Env, primes: PrimeTable, maxOutput: int, representation: string): (r: Result<seq<Answer>, Error>)
    ensures representation == "str" || representation == "dict" ==> r.Success? || Decoder.DecodeError(r.error)
    ensures r.Success? ==> |r.value| <= Cap(maxOutput)
  {
    PotasscoHandle(env, SteadyStatesRequest(primes, maxOutput, representation))
  }

  /** The program of `steady_states` refuses fewer than `n` fixed variables
      (for `n` variables) and more than `n`; it keeps the bijection rule
      (one answer per trap space) and shows the `hit` atoms. */
  lemma SteadyStatesProgram(primes: PrimeTable, maxOutput: int, representation: string, date: string)
    ensures var p := Program(SteadyStatesRequest(primes, maxOutput, representation), All, date);
      && Select(p, CardinalityConstraint)
         == (if |primes| > 0 then [LowerBoundLine(|primes| - 1)] else []) + [UpperBoundLine(|primes| + 1)]
      && Select(p, ShowDirective) == [ShowHits]
  {
    var req := SteadyStatesRequest(primes, maxOutput, representation);
    SteadyStatesPlan(primes, maxOutput, representation);
    ProgramCardinality(req, All, date);
    ProgramShows(req, All, date);
  }

  lemma SteadyStatesPlan(primes: PrimeTable, maxOutput: int, representation: string)
    ensures var req := SteadyStatesRequest(primes, maxOutput, representation);
      && BoundConstraints(ResolveBounds(req.bounds, req.primes)) + Select(req.extra, CardinalityConstraint)
         == (if |primes| > 0 then [LowerBoundLine(|primes| - 1)] else []) + [UpperBoundLine(|primes| + 1)]
      && Select(req.extra, ShowDirective) + Shown(Kept(req.project, req.primes), Some(All)) == [ShowHits]
  {
    var req := SteadyStatesRequest(primes, maxOutput, representation);
    AppendEmpty(BoundConstraints(ResolveBounds(req.bounds, primes)));
  }

  /** The program of `steady_states` keeps the bijection rule, so that each
      steady state is one answer, and has no percolation rule. */
  lemma SteadyStatesRules(primes: PrimeTable, maxOutput: int, representation: string, date: string)
    ensures var p := Program(SteadyStatesRequest(primes, maxOutput, representation), All, date);
      BijectionRule in p && PercolationRule !in p
  {
    var req := SteadyStatesRequest(primes, maxOutput, representation);
    TypeRules(req.primes, ResolveBounds(req.bounds, req.primes), req.project, Some(All), req.extra, date);
  }

  /** `trap_spaces_bounded`: the trap spaces of a type among those whose
      number of fixed variables lies within the bounds. */
  function TrapSpacesBoundedRequest(primes: PrimeTable, typeName: string, bounds: (BoundEnd, BoundEnd), maxOutput: int): Request
  {
    Request(primes, typeName, Some(bounds), None, maxOutput, "dict", [])
  }

  function TrapSpacesBounded(env: Env, primes: PrimeTable, typeName: string, bounds: (BoundEnd, BoundEnd), maxOutput: int): (r: Result<seq<Answer>, Error>)
    ensures r.Success? ==> |r.value| <= Cap(maxOutput) && forall k :: 0 <= k < |r.value| ==> r.value[k].AsDict?
    ensures ParseQueryType(typeName).None? ==> r == Failure(UnknownType(typeName))
  {
    PotasscoHandle(env, TrapSpacesBoundedRequest(primes, typeName, bounds, maxOutput))
  }

  /** The program of `trap_spaces_bounded` for bounds `(lo, hi)`, each `"n"`
      read as the number of variables: fewer than `lo` fixed variables is
      refused when `lo > 0`, more than `hi` always. */
  lemma TrapSpacesBoundedProgram(primes: PrimeTable, typeName: string, t: QueryType, bounds: (BoundEnd, BoundEnd), maxOutput: int, date: string)
    requires ParseQueryType(typeName) == Some(t)
    ensures var p := Program(TrapSpacesBoundedRequest(primes, typeName, bounds, maxOutput), t, date);
      var lo, hi := ResolveEnd(bounds.0, |primes|), ResolveEnd(bounds.1, |primes|);
      Select(p, CardinalityConstraint) == (if lo > 0 then [LowerBoundLine(lo - 1)] else []) + [UpperBoundLine(hi + 1)]
  {
    var req := TrapSpacesBoundedRequest(primes, typeName, bounds, maxOutput);
    TrapSpacesBoundedPlan(primes, typeName, bounds, maxOutput);
    ProgramCardinality(req, t, date);
  }

  lemma TrapSpacesBoundedPlan(primes: PrimeTable, typeName: string, bounds: (BoundEnd, BoundEnd), maxOutput: int)
    ensures var req := TrapSpacesBoundedRequest(primes, typeName, bounds, maxOutput);
      var lo, hi := ResolveEnd(bounds.0, |primes|), ResolveEnd(bounds.1, |primes|);
      BoundConstraints(ResolveBounds(req.bounds, req.primes)) + Select(req.extra, CardinalityConstraint)
      == (if lo > 0 then [LowerBoundLine(lo - 1)] else []) + [UpperBoundLine(hi + 1)]
  {
    var req := TrapSpacesBoundedRequest(primes, typeName, bounds, maxOutput);
    AppendEmpty(BoundConstraints(ResolveBounds(req.bounds, primes)));
  }

  /** The names of a projection that are not variables of the network. */
  function UnknownNamesOf(project: seq<Name>, primes: PrimeTable): (r: set<Name>)
    ensures forall n :: n in r <==> n in project && n !in primes
  {
    (set n | n in project) - primes.Keys
  }

  function SteadyStatesProjectedRequest(primes: PrimeTable, project: seq<Name>, maxOutput: int): Request
  {
    Request(primes, "all", Some((AllVars, AllVars)), Some(project), maxOutput, "dict", [])
  }

  /** `steady_states_projected`: a projection naming an unknown variable
      ends the query; otherwise the steady states projected onto it. */
  function SteadyStatesProjected(env: Env, primes: PrimeTable, project: seq<Name>, maxOutput: int): (r: Result<seq<Answer>, Error>)
    ensures UnknownNamesOf(project, primes) != {} ==> r == Failure(UnknownNames(UnknownNamesOf(project, primes)))
    ensures UnknownNamesOf(project, primes) == {} ==> (r.Success? ==> |r.value| <= Cap(maxOutput)) && (r.Failure? ==> !r.error.UnknownNames?)
  {
    var unknown := UnknownNamesOf(project, primes);
    if unknown != {} then Failure(UnknownNames(unknown))
    else PotasscoHandle(env, SteadyStatesProjectedRequest(primes, project, maxOutput))
  }

  lemma {:induction false} KeepKnownAll(project: seq<Name>, primes: PrimeTable)
    requires forall n :: n in project ==> n in primes
    ensures KeepKnown(project, primes) == project
    decreases |project|
  {
    if project != [] {
      var init := project[..|project| - 1];
      assert forall n :: n in init ==> n in project;
      KeepKnownAll(init, primes);
      SplitLast(project);
    }
  }

  lemma SplitLast(names: seq<Name>)
    requires names != []
    ensures names[..|names| - 1] + [names[|names| - 1]] == names
  {
  }

  /** When every name of the projection is a variable, the program of
      `steady_states_projected` shows exactly the projection's variables,
      one directive per name in the projection's order, after `#show.`;
      an empty projection shows every `hit` atom. */
  lemma SteadyStatesProjectedProgram(primes: PrimeTable, project: seq<Name>, maxOutput: int, date: string)
    requires forall n :: n in project ==> n in primes
    ensures Select(Program(SteadyStatesProjectedRequest(primes, project, maxOutput), All, date), ShowDirective)
            == (if project == [] then [ShowHits] else [ShowNothing] + ShowNameLines(project))
  {
    var req := SteadyStatesProjectedRequest(primes, project, maxOutput);
    ProgramShows(req, All, date);
    KeepKnownAll(project, primes);
    assert Kept(req.project, req.primes) == project;
    assert Select(req.extra, ShowDirective) == [];
  }

  /** `circuits`: the trap spaces of type circuits, any number of fixed
      variables up to all of them. */
  function CircuitsRequest(primes: PrimeTable, maxOutput: int, representation: string): Request
  {
    Request(primes, "circuits", Some((Num(0), AllVars)), None, maxOutput, representation, [])
  }

  function Circuits(env: Env, primes: PrimeTable, maxOutput: int, representation: string): (r: Result<seq<Answer>, Error>)
    ensures representation == "str" || representation == "dict" ==> r.Success? || Decoder.DecodeError(r.error)
    ensures r.Success? ==> |r.value| <= Cap(maxOutput)
  {
    PotasscoHandle(env, CircuitsRequest(primes, maxOutput, representation))
  }

  /** The program of `circuits` only refuses more fixed variables than
      there are variables, shows the `percolated` and `hit` atoms, and has
      the percolation, upstream and percolated rules. */
  lemma CircuitsProgram(primes: PrimeTable, maxOutput: int, representation: string, date: string)
    ensures var p := Program(CircuitsRequest(primes, maxOutput, representation), QueryType.Circuits, date);
      && Select(p, CardinalityConstraint) == [UpperBoundLine(|primes| + 1)]
      && Select(p, ShowDirective) == [ShowPercolated, ShowHits]
  {
    var req := CircuitsRequest(primes, maxOutput, representation);
    CircuitsPlan(primes, maxOutput, representation);
    ProgramCardinality(req, QueryType.Circuits, date);
    ProgramShows(req, QueryType.Circuits, date);
  }

  lemma CircuitsPlan(primes: PrimeTable, maxOutput: int, representation: string)
    ensures var req := CircuitsRequest(primes, maxOutput, representation);
      && BoundConstraints(ResolveBounds(req.bounds, req.primes)) + Select(req.extra, CardinalityConstraint)
         == [UpperBoundLine(|primes| + 1)]
      && Select(req.extra, ShowDirective) + Shown(Kept(req.project, req.primes), Some(QueryType.Circuits))
         == [ShowPercolated, ShowHits]
  {
    var req := CircuitsRequest(primes, maxOutput, representation);
    AppendEmpty(BoundConstraints(ResolveBounds(req.bounds, primes)));
  }

  /** The program of `circuits` has the percolation, upstream and
      percolated rules and no bijection rule. */
  lemma CircuitsRules(primes: PrimeTable, maxOutput: int, representation: string, date: string)
    ensures var p := Program(CircuitsRequest(primes, maxOutput, representation), QueryType.Circuits, date);
      && PercolationRule in p && UpstreamRule in p && UpstreamClosureRule in p && PercolatedRule in p
      && BijectionRule !in p
  {
    var req := CircuitsRequest(primes, maxOutput, representation);
    TypeRules(req.primes, ResolveBounds(req.bounds, req.primes), req.project, Some(QueryType.Circuits), req.extra, date);
  }

  // ---------------------------------------------------------------------
  // The queries about a subspace

  /** A subspace as a caller passes it: a dict or its string form. */
  datatype SubspaceArg = DictArg(d: Dict) | StrArg(s: string)

  /** `len(subspace)` before any conversion: the number of items of a
      dict, the number of characters of a string. */
  function ArgLength(a: SubspaceArg): nat
  {
    match a
    case DictArg(d) => |d|
    case StrArg(s) => |s|
  }

  /** The subspace as a dict, a string converted by `subspace2dict`. */
  function ToDict(env: Env, primes: PrimeTable, a: SubspaceArg): Dict
  {
    match a
    case DictArg(d) => d
    case StrArg(s) => env.toDict(primes, s)
  }

  /** The primes `active_primes` keeps for the subspace. */
  function Relevant(env: Env, primes: PrimeTable, a: SubspaceArg): PrimeTable
  {
    env.activePrimes(primes, DictOf(ToDict(env, primes, a)))
  }

  /** The converted subspace fixes as many variables as the network has. */
  predicate FullState(env: Env, primes: PrimeTable, a: SubspaceArg)
  {
    |ToDict(env, primes, a)| == |primes|
  }

  function IntersectRequest(relevant: PrimeTable, typeName: string, maxOutput: int, representation: string): Request
  {
    Request(relevant, typeName, if typeName == "max" then Some((Num(1), AllVars)) else None, Some([]),
            maxOutput, representation, [])
  }

  /** The answer that stands for "no trap space": the empty subspace, as a
      string formed with the primes of the whole network when asked for. */
  function NoTrapSpace(env: Env, primes: PrimeTable, representation: string): Answer
  {
    if representation == "str" then AsStr(env.toStr(primes, map[])) else AsDict(Decoder.Space(map[]))
  }

  /** `trapspaces_that_intersect_subspace`: a subspace larger than the
      network fails the assertion; no answer from the solver becomes the
      one answer "empty subspace"; for a full state and the minimal type,
      the one answer is returned and more than one ends the query. */
  function TrapspacesThatIntersectSubspace(env: Env, primes: PrimeTable, subspace: SubspaceArg, typeName: string,
                                           representation: string, maxOutput: int): (r: Result<seq<Answer>, Error>)
    ensures ArgLength(subspace) > |primes| <==> r == Failure(AssertionFailed)
  {
    if |primes| < ArgLength(subspace) then Failure(AssertionFailed)
    else
      var tspaces :- IntersectHandle(env, primes, subspace, typeName, representation, maxOutput);
      IntersectAnswers(env, primes, subspace, typeName, representation, maxOutput, tspaces)
  }

  /** What the intersect query makes of the solver's answers: none becomes
      the empty subspace; for a full state and the minimal type, more than
      one ends the query and a single one is kept (`[tspaces.pop()]`);
      otherwise the answers come back unchanged. */
  function IntersectAnswers(env: Env, primes: PrimeTable, subspace: SubspaceArg, typeName: string,
                            representation: string, maxOutput: int, tspaces: seq<Answer>): (r: Result<seq<Answer>, Error>)
    ensures r.Success? ==> 1 <= |r.value| <= |tspaces| || r.value == [NoTrapSpace(env, primes, representation)]
    ensures r.Success? && typeName == "min" && FullState(env, primes, subspace) ==> |r.value| == 1
    ensures r.Failure? ==> r.error.NotUnique? && typeName == "min" && FullState(env, primes, subspace) && r.error.count > 1
    ensures tspaces != [] && !(typeName == "min" && FullState(env, primes, subspace)) ==> r == Success(tspaces)
    ensures tspaces != [] && r.Success? && typeName == "min" && FullState(env, primes, subspace) ==> r.value == [tspaces[|tspaces| - 1]]
  {
    if tspaces == [] then Success([NoTrapSpace(env, primes, representation)])
    else if FullState(env, primes, subspace) && typeName == "min" then
      if |tspaces| > 1 then Failure(NotUnique(|tspaces|)) else Success([tspaces[|tspaces| - 1]])
    else Success(tspaces)
  }

  /** The intersect query answers at most `max_output` trap spaces, or the
      single empty subspace. */
  lemma IntersectCount(env: Env, primes: PrimeTable, subspace: SubspaceArg, typeName: string,
                       representation: string, maxOutput: int)
    ensures var r := TrapspacesThatIntersectSubspace(env, primes, subspace, typeName, representation, maxOutput);
      r.Success? ==> 1 <= |r.value| <= Cap(maxOutput) || r.value == [NoTrapSpace(env, primes, representation)]
  {
    var r := TrapspacesThatIntersectSubspace(env, primes, subspace, typeName, representation, maxOutput);
    if ArgLength(subspace) <= |primes| {
      var h := IntersectHandle(env, primes, subspace, typeName, representation, maxOutput);
      if h.Success? {
        assert r == IntersectAnswers(env, primes, subspace, typeName, representation, maxOutput, h.value);
      }
    }
  }

  /** For a state fixing every variable and the minimal type, the intersect
      query gives one answer, and ends with more than one from the solver;
      it ends that way in no other case. */
  lemma IntersectMinimal(env: Env, primes: PrimeTable, subspace: SubspaceArg, typeName: string,
                         representation: string, maxOutput: int)
    ensures var r := TrapspacesThatIntersectSubspace(env, primes, subspace, typeName, representation, maxOutput);
      && (r.Success? && typeName == "min" && FullState(env, primes, subspace) ==> |r.value| == 1)
      && (r.Failure? && r.error.NotUnique? ==> typeName == "min" && FullState(env, primes, subspace) && r.error.count > 1)
  {
    var r := TrapspacesThatIntersectSubspace(env, primes, subspace, typeName, representation, maxOutput);
    if ArgLength(subspace) <= |primes| {
      var h := IntersectHandle(env, primes, subspace, typeName, representation, maxOutput);
      if h.Success? {
        assert r == IntersectAnswers(env, primes, subspace, typeName, representation, maxOutput, h.value);
      } else {
        assert r == Failure(h.error);
      }
    }
  }

  /** The solver's answers for the primes relevant to the subspace. */
  function IntersectHandle(env: Env, primes: PrimeTable, subspace: SubspaceArg, typeName: string,
                           representation: string, maxOutput: int): (r: Result<seq<Answer>, Error>)
    ensures r.Success? ==> |r.value| <= Cap(maxOutput)
    ensures r.Failure? ==> r.error.UnknownType? || r.error.UnknownRepresentation? || Decoder.DecodeError(r.error)
  {
    PotasscoHandle(env, IntersectRequest(Relevant(env, primes, subspace), typeName, maxOutput, representation))
  }

  /** With no answer from the solver, the query answers the empty subspace. */
  lemma IntersectNoAnswers(env: Env, primes: PrimeTable, subspace: SubspaceArg, typeName: string,
                           representation: string, maxOutput: int)
    requires ArgLength(subspace) <= |primes|
    requires IntersectHandle(env, primes, subspace, typeName, representation, maxOutput) == Success([])
    ensures TrapspacesThatIntersectSubspace(env, primes, subspace, typeName, representation, maxOutput)
            == Success([NoTrapSpace(env, primes, representation)])
  {
  }

  /** The intersect query returns the solver's trap spaces as they come,
      or for a full state and the minimal type the last of them. */
  lemma IntersectReturnsAnswers(env: Env, primes: PrimeTable, subspace: SubspaceArg, typeName: string,
                                representation: string, maxOutput: int, tspaces: seq<Answer>)
    requires ArgLength(subspace) <= |primes|
    requires IntersectHandle(env, primes, subspace, typeName, representation, maxOutput) == Success(tspaces)
    requires tspaces != []
    ensures var r := TrapspacesThatIntersectSubspace(env, primes, subspace, typeName, representation, maxOutput);
      && (!(typeName == "min" && FullState(env, primes, subspace)) ==> r == Success(tspaces))
      && (r.Success? && typeName == "min" && FullState(env, primes, subspace) ==> r.value == [tspaces[|tspaces| - 1]])
  {
    var r := TrapspacesThatIntersectSubspace(env, primes, subspace, typeName, representation, maxOutput);
    assert r == IntersectAnswers(env, primes, subspace, typeName, representation, maxOutput, tspaces);
  }

  /** The program of the intersect query asks the maximal type for at
      least one fixed variable and no other type for any bound, and shows
      every `hit` atom: its empty projection shows nothing less. */
  lemma IntersectProgram(relevant: PrimeTable, typeName: string, t: QueryType, maxOutput: int, representation: string, date: string)
    requires ParseQueryType(typeName) == Some(t)
    ensures var p := Program(IntersectRequest(relevant, typeName, maxOutput, representation), t, date);
      && Select(p, CardinalityConstraint)
         == (if typeName == "max" then [LowerBoundLine(0), UpperBoundLine(|relevant| + 1)] else [])
      && Select(p, ShowDirective) == (if t == QueryType.Circuits then [ShowPercolated, ShowHits] else [ShowHits])
  {
    var req := IntersectRequest(relevant, typeName, maxOutput, representation);
    IntersectPlan(relevant, typeName, t, maxOutput, representation);
    ProgramCardinality(req, t, date);
    ProgramShows(req, t, date);
  }

  lemma IntersectPlan(relevant: PrimeTable, typeName: string, t: QueryType, maxOutput: int, representation: string)
    ensures var req := IntersectRequest(relevant, typeName, maxOutput, representation);
      && BoundConstraints(ResolveBounds(req.bounds, req.primes)) + Select(req.extra, CardinalityConstraint)
         == (if typeName == "max" then [LowerBoundLine(0), UpperBoundLine(|relevant| + 1)] else [])
      && Select(req.extra, ShowDirective) + Shown(Kept(req.project, req.primes), Some(t))
         == (if t == QueryType.Circuits then [ShowPercolated, ShowHits] else [ShowHits])
  {
    var req := IntersectRequest(relevant, typeName, maxOutput, representation);
    AppendEmpty(BoundConstraints(ResolveBounds(req.bounds, relevant)));
  }

  /** `trapspaces_that_contain_state`: the intersect query for a state. */
  function TrapspacesThatContainState(env: Env, primes: PrimeTable, state: SubspaceArg, typeName: string,
                                      representation: string, maxOutput: int): (r: Result<seq<Answer>, Error>)
    ensures ArgLength(state) > |primes| <==> r == Failure(AssertionFailed)
  {
    TrapspacesThatIntersectSubspace(env, primes, state, typeName, representation, maxOutput)
  }

  /** `smallest_trapspace`: the minimal trap space containing a state,
      which for a state fixing every variable is one answer. */
  function SmallestTrapspace(env: Env, primes: PrimeTable, state: SubspaceArg, representation: string): (r: Result<seq<Answer>, Error>)
    ensures ArgLength(state) > |primes| <==> r == Failure(AssertionFailed)
  {
    TrapspacesThatContainState(env, primes, state, "min", representation, DefaultMaxOutput)
  }

  /** For a state fixing every variable, `smallest_trapspace` gives exactly
      one answer or ends because the solver found more than one. */
  lemma SmallestTrapspaceUnique(env: Env, primes: PrimeTable, state: SubspaceArg, representation: string)
    ensures var r := SmallestTrapspace(env, primes, state, representation);
      && (r.Success? ==> |r.value| >= 1)
      && (r.Success? && FullState(env, primes, state) ==> |r.value| == 1)
      && (r.Failure? && r.error.NotUnique? ==> FullState(env, primes, state) && r.error.count > 1)
  {
    IntersectCount(env, primes, state, "min", representation, DefaultMaxOutput);
    IntersectMinimal(env, primes, state, "min", representation, DefaultMaxOutput);
  }

  /** For a state fixing every variable, the one answer of
      `smallest_trapspace` is the solver's answer. */
  lemma SmallestTrapspaceAnswer(env: Env, primes: PrimeTable, state: SubspaceArg, representation: string, tspaces: seq<Answer>)
    requires ArgLength(state) <= |primes| && FullState(env, primes, state)
    requires IntersectHandle(env, primes, state, "min", representation, DefaultMaxOutput) == Success(tspaces)
    ensures var r := SmallestTrapspace(env, primes, state, representation);
      && (tspaces == [] ==> r == Success([NoTrapSpace(env, primes, representation)]))
      && (|tspaces| == 1 ==> r == Success(tspaces))
      && (|tspaces| > 1 ==> r == Failure(NotUnique(|tspaces|)))
  {
    var r := TrapspacesThatIntersectSubspace(env, primes, state, "min", representation, DefaultMaxOutput);
    assert SmallestTrapspace(env, primes, state, representation) == r;
    var a := IntersectAnswers(env, primes, state, "min", representation, DefaultMaxOutput, tspaces);
    assert r == a;
    if |tspaces| == 1 {
      assert a == Success([tspaces[0]]);
      assert [tspaces[0]] == tspaces;
    }
  }

  const NotHitOpen := "not hit(\""
  const NotHitMiddle := "\","

  /** `:- not hit("node",value).`: an answer must fix `node` to `value`. */
  function NotHitLine(node: Name, value: int): string
  {
    Constraint(NotHitOpen + node + NotHitMiddle + IntToString(value) + ")")
  }

  /** One not-hit line per item of the subspace, in its order. */
  function NotHitLines(d: Entries): (r: seq<string>)
    ensures |r| == |d|
    ensures forall k :: 0 <= k < |d| ==> r[k] == NotHitLine(d[k].0, d[k].1)
  {
    seq(|d|, k requires 0 <= k < |d| => NotHitLine(d[k].0, d[k].1))
  }

  function WithinRequest(relevant: PrimeTable, d: Dict, typeName: string, maxOutput: int, representation: string): Request
  {
    Request(relevant, typeName, Some((Num(|d|), AllVars)), Some([]), maxOutput, representation, NotHitLines(d) + [""])
  }

  /** `trapspaces_within_subspace`: for the empty subspace, `trap_spaces`;
      for a subspace larger than the network, the failed assertion;
      otherwise the trap spaces that fix every variable of the subspace to
      its value. */
  function TrapspacesWithinSubspace(env: Env, primes: PrimeTable, subspace: SubspaceArg, typeName: string,
                                    representation: string, maxOutput: int): (r: Result<seq<Answer>, Error>)
    ensures ArgLength(subspace) == 0 ==> r == TrapSpaces(env, primes, typeName, maxOutput, representation)
    ensures ArgLength(subspace) > |primes| <==> r == Failure(AssertionFailed)
    ensures r.Success? ==> |r.value| <= Cap(maxOutput)
  {
    if ArgLength(subspace) > |primes| then Failure(AssertionFailed)
    else WithinQuery(env, primes, subspace, typeName, representation, maxOutput)
  }

  /** The within query once the assertion holds: `trap_spaces` for the
      empty subspace, the solver's answers with the subspace fixed
      otherwise. */
  function WithinQuery(env: Env, primes: PrimeTable, subspace: SubspaceArg, typeName: string,
                       representation: string, maxOutput: int): (r: Result<seq<Answer>, Error>)
    ensures ArgLength(subspace) == 0 ==> r == TrapSpaces(env, primes, typeName, maxOutput, representation)
    ensures r.Success? ==> |r.value| <= Cap(maxOutput)
    ensures r.Failure? ==> r.error.UnknownType? || r.error.UnknownRepresentation? || Decoder.DecodeError(r.error)
  {
    if ArgLength(subspace) == 0 then TrapSpaces(env, primes, typeName, maxOutput, representation)
    else WithinHandle(env, primes, subspace, typeName, representation, maxOutput)
  }

  /** The solver's answers for the primes relevant to the subspace, with
      every variable of the subspace fixed to its value. */
  function WithinHandle(env: Env, primes: PrimeTable, subspace: SubspaceArg, typeName: string,
                        representation: string, maxOutput: int): (r: Result<seq<Answer>, Error>)
    ensures r.Success? ==> |r.value| <= Cap(maxOutput)
    ensures r.Failure? ==> r.error.UnknownType? || r.error.UnknownRepresentation? || Decoder.DecodeError(r.error)
  {
    var d := ToDict(env, primes, subspace);
    PotasscoHandle(env, WithinRequest(Relevant(env, primes, subspace), d, typeName, maxOutput, representation))
  }

  lemma NotHitLinesOther(d: Entries)
    ensures NoneOf(NotHitLines(d) + [""], CardinalityConstraint)
    ensures NoneOf(NotHitLines(d) + [""], ShowDirective)
  {
    forall k | 0 <= k < |d| ensures NotHitLine(d[k].0, d[k].1)[3] == 'n' {
      var body := NotHitOpen + d[k].0 + NotHitMiddle + IntToString(d[k].1) + ")";
      assert body[0] == 'n';
    }
  }

  /** The program of the within query: its cardinality constraints refuse
      fewer fixed variables than the subspace fixes and more than the
      relevant primes have (the not-hit lines are none of them); it shows
      every `hit` atom, or the `percolated` and `hit` atoms for circuits. */
  lemma WithinProgram(relevant: PrimeTable, d: Dict, typeName: string, t: QueryType, maxOutput: int, representation: string, date: string)
    requires ParseQueryType(typeName) == Some(t)
    ensures var p := Program(WithinRequest(relevant, d, typeName, maxOutput, representation), t, date);
      && Select(p, CardinalityConstraint)
         == (if |d| > 0 then [LowerBoundLine(|d| - 1)] else []) + [UpperBoundLine(|relevant| + 1)]
      && Select(p, ShowDirective) == (if t == QueryType.Circuits then [ShowPercolated, ShowHits] else [ShowHits])
  {
    var req := WithinRequest(relevant, d, typeName, maxOutput, representation);
    WithinPlan(relevant, d, typeName, t, maxOutput, representation);
    ProgramCardinality(req, t, date);
    ProgramShows(req, t, date);
  }

  lemma WithinPlan(relevant: PrimeTable, d: Dict, typeName: string, t: QueryType, maxOutput: int, representation: string)
    ensures var req := WithinRequest(relevant, d, typeName, maxOutput, representation);
      && BoundConstraints(ResolveBounds(req.bounds, req.primes)) + Select(req.extra, CardinalityConstraint)
         == (if |d| > 0 then [LowerBoundLine(|d| - 1)] else []) + [UpperBoundLine(|relevant| + 1)]
      && Select(req.extra, ShowDirective) + Shown(Kept(req.project, req.primes), Some(t))
         == (if t == QueryType.Circuits then [ShowPercolated, ShowHits] else [ShowHits])
  {
    var req := WithinRequest(relevant, d, typeName, maxOutput, representation);
    NotHitLinesOther(d);
    SelectNone(req.extra, CardinalityConstraint);
    SelectNone(req.extra, ShowDirective);
    var bs := BoundConstraints(ResolveBounds(req.bounds, relevant));
    assert ResolveBounds(req.bounds, relevant) == Some((|d|, |relevant|));
    assert bs == (if |d| > 0 then [LowerBoundLine(|d| - 1)] else []) + [UpperBoundLine(|relevant| + 1)];
    AppendEmpty(bs);
    assert Kept(req.project, req.primes) == [];
  }

  /** In the program of the within query, one `:- not hit("node",value).`
      line per item of the subspace and a blank line come right after the
      bounds section and right before the show section. */
  lemma WithinLines(relevant: PrimeTable, d: Dict, typeName: string, t: QueryType, maxOutput: int, representation: string, date: string)
    ensures EndsWith(Program(WithinRequest(relevant, d, typeName, maxOutput, representation), t, date),
                     BoundLines(Some((|d|, |relevant|))), NotHitLines(d) + [""], ShowLines([], Some(t)))
  {
    var req := WithinRequest(relevant, d, typeName, maxOutput, representation);
    assert ResolveBounds(req.bounds, req.primes) == Some((|d|, |relevant|));
    assert Kept(req.project, req.primes) == [];
    ExtraLinesPlaced(req.primes, ResolveBounds(req.bounds, req.primes), req.project, Some(t), req.extra, date);
  }
}
