/** The decoding loops of `potassco_handle`: the solver's output is cut into
    lines, the line after each `Answer` line is a solution, and its `hit`
    atoms (and, for circuits, its `percolated` atoms) become subspaces. */
module Decoder {
  import opened Basics
  import opened Strings
  import opened Network

  /** One decoded answer: a subspace, or for circuits the pair of the
      circuit nodes and the percolated nodes. */
  datatype Solution = Space(space: Subspace) | CircuitSpace(circ: Subspace, perc: Subspace)

  const AnswerMarker := "Answer"
  const HitOpen := "hit("
  const PercolatedOpen := "percolated("
  const HitWord := "hit"
  const PercWord := "perc"
  const Quote := "\""

  /** `line[:6] == "Answer"`. */
  predicate IsAnswerMarker(line: string)
  {
    StartsWith(line, AnswerMarker)
  }

  // ---------------------------------------------------------------------
  // Tokens

  /** `x[4:-1].split(",")`, then `(x[0][1:-1], int(x[1]))`: indexing a
      missing second part raises `IndexError`, a second part that is not an
      integer raises `ValueError`. */
  function ParseHitToken(x: string): (r: Result<(Name, int), Error>)
    ensures r.Failure? ==> DecodeError(r.error)
  {
    var parts := Split(Slice(x, 4, -1), ',');
    if |parts| < 2 then Failure(IndexError)
    else match ParseInt(parts[1])
      case None => Failure(ValueError)
      case Some(v) => Success((Slice(parts[0], 1, -1), v))
  }

  /** The tokens parsed in order; the first token that fails decides the error. */
  function ParseHitTokens(ts: seq<string>): (r: Result<Entries, Error>)
    ensures r.Success? ==> |r.value| == |ts|
    ensures r.Failure? ==> DecodeError(r.error)
  {
    if ts == [] then Success([])
    else
      var first :- ParseHitToken(ts[0]);
      var rest :- ParseHitTokens(ts[1..]);
      Success([first] + rest)
  }

  /** `[x for x in ts if p in x]` */
  function Containing(ts: seq<string>, p: string): seq<string>
  {
    if ts == [] then [] else (if Contains(ts[0], p) then [ts[0]] else []) + Containing(ts[1..], p)
  }

  /** `[x for x in ts if x.startswith(p)]` */
  function Prefixed(ts: seq<string>, p: string): seq<string>
  {
    if ts == [] then [] else (if StartsWith(ts[0], p) then [ts[0]] else []) + Prefixed(ts[1..], p)
  }

  /** `[x[12:-2] for x in ts]`: the name inside `percolated("name")`. */
  function PercNames(ts: seq<string>): (r: seq<Name>)
    ensures |r| == |ts|
  {
    seq(|ts|, k requires 0 <= k < |ts| => Slice(ts[k], 12, -2))
  }

  /** `[x for x in es if (x[0] in names) == inside]` */
  function KeepNames(es: Entries, names: set<Name>, inside: bool): Entries
  {
    if es == [] then []
    else
      var last := es[|es| - 1];
      KeepNames(es[..|es| - 1], names, inside) + (if (last.0 in names) == inside then [last] else [])
  }

  /** The part of `d` inside (or outside) `names`. */
  function Restrict(d: Subspace, names: set<Name>, inside: bool): Subspace
  {
    map n | n in d && (n in names) == inside :: d[n]
  }

  // ---------------------------------------------------------------------
  // Answer lines

  /** An answer of the types other than circuits: every token is a `hit`
      atom, and `dict` keeps the last value given for a name. */
  function ParseHitLine(line: string): (r: Result<Subspace, Error>)
    ensures r.Failure? ==> DecodeError(r.error)
    ensures r.Success? ==> ParseHitTokens(Words(line)).Success? && r.value.Keys == NamesOf(ParseHitTokens(Words(line)).value)
  {
    var es :- ParseHitTokens(Words(line));
    Success(DictOf(es))
  }

  /** The circuits answer as the loop computes it: a token counts as a `hit`
      atom when it contains `hit` anywhere, and as a `percolated` atom when
      it contains `perc` anywhere. */
  function ParseCircuitLineAsWritten(line: string): (r: Result<(Subspace, Subspace), Error>)
    ensures r.Failure? ==> DecodeError(r.error)
    ensures r.Success? ==>
      var (circ, perc) := r.value;
      && ParseHitTokens(Containing(Words(line), HitWord)).Success?
      && var hits := DictOf(ParseHitTokens(Containing(Words(line), HitWord)).value);
      var names := set p | p in PercNames(Containing(Words(line), PercWord));
      && circ.Keys !! perc.Keys
      && circ.Keys + perc.Keys == hits.Keys
      && perc.Keys == hits.Keys * names
      && (forall n :: n in circ ==> circ[n] == hits[n])
      && (forall n :: n in perc ==> perc[n] == hits[n])
  {
    var ts := Words(line);
    var hits :- ParseHitTokens(Containing(ts, HitWord));
    var percNames := PercNames(Containing(ts, PercWord));
    var perc := DictOf(KeepNames(hits, set p | p in percNames, true));
    var circ := DictOf(KeepNames(hits, perc.Keys, false));
    KeepNamesDict(hits, set p | p in percNames, true);
    KeepNamesDict(hits, perc.Keys, false);
    Success((circ, perc))
  }

  /** The circuits answer with atoms told apart by their predicate:
      `hit(` tokens are the fixed variables and `percolated(` tokens name
      the percolated ones. The percolated map holds the fixed variables
      named percolated, the circuit map all the others, with their values. */
  function ParseCircuitLine(line: string): (r: Result<(Subspace, Subspace), Error>)
    ensures r.Failure? ==> DecodeError(r.error)
    ensures r.Success? ==>
      var (circ, perc) := r.value;
      && ParseHitTokens(Prefixed(Words(line), HitOpen)).Success?
      && var hits := DictOf(ParseHitTokens(Prefixed(Words(line), HitOpen)).value);
      var names := set p | p in PercNames(Prefixed(Words(line), PercolatedOpen));
      && circ.Keys !! perc.Keys
      && circ.Keys + perc.Keys == hits.Keys
      && perc.Keys == hits.Keys * names
      && (forall n :: n in circ ==> circ[n] == hits[n])
      && (forall n :: n in perc ==> perc[n] == hits[n])
  {
    var ts := Words(line);
    var hits :- ParseHitTokens(Prefixed(ts, HitOpen));
    var names := set p | p in PercNames(Prefixed(ts, PercolatedOpen));
    var perc := DictOf(KeepNames(hits, names, true));
    var circ := DictOf(KeepNames(hits, perc.Keys, false));
    KeepNamesDict(hits, names, true);
    KeepNamesDict(hits, perc.Keys, false);
    Success((circ, perc))
  }

  /** One answer line: a circuits answer for circuits, a subspace otherwise. */
  function ParseSolution(line: string, circuits: bool): (r: Result<Solution, Error>)
    ensures r.Failure? ==> DecodeError(r.error)
    ensures r.Success? ==> (r.value.CircuitSpace? <==> circuits)
  {
    if circuits then
      var cp :- ParseCircuitLine(line);
      Success(CircuitSpace(cp.0, cp.1))
    else
      var d :- ParseHitLine(line);
      Success(Space(d))
  }

  // ---------------------------------------------------------------------
  // The decoding loop

  /** What the loop returns for `lines` when it may still collect `m`
      solutions: nothing once `m` is used up or the lines are; a line
      starting with `Answer` consumes the next line as a solution, and
      `lines.pop(0)` on no line left raises `IndexError`. Circuits answers
      are read with `ParseCircuitLine`, the corrected parse. The only
      failures are the loop's own exceptions. */
  function Decode(lines: seq<string>, circuits: bool, m: int): (r: Result<seq<Solution>, Error>)
    ensures r.Failure? ==> DecodeError(r.error)
    decreases |lines|
  {
    if lines == [] || m <= 0 then Success([])
    else if !IsAnswerMarker(lines[0]) then Decode(lines[1..], circuits, m)
    else if |lines| == 1 then Failure(IndexError)
    else
      var s :- ParseSolution(lines[1], circuits);
      var rest :- Decode(lines[2..], circuits, m - 1);
      Success([s] + rest)
  }

  /** The exceptions the decoding loop itself can raise. */
  predicate DecodeError(e: Error)
  {
    e == IndexError || e == ValueError
  }

  /** The solutions already collected, ahead of those still to come. */
  function Prepend(done: seq<Solution>, r: Result<seq<Solution>, Error>): Result<seq<Solution>, Error>
  {
    match r
    case Success(more) => Success(done + more)
    case Failure(e) => Failure(e)
  }

  /** `lines = output.split("\n")`, then pop lines while there are lines
      and fewer than `maxOutput` solutions. */
  method DecodeOutput(output: string, circuits: bool, maxOutput: int) returns (r: Result<seq<Solution>, Error>)
    ensures r == Decode(Split(output, '\n'), circuits, maxOutput)
  {
    var lines := Split(output, '\n');
    ghost var all := lines;
    var result: seq<Solution> := [];
    assert Prepend(result, Decode(all, circuits, maxOutput)) == Decode(all, circuits, maxOutput) by {
      var r := Decode(all, circuits, maxOutput);
      if r.Success? {
        assert [] + r.value == r.value;
      }
    }
    while lines != [] && |result| < maxOutput
      invariant Decode(all, circuits, maxOutput) == Prepend(result, Decode(lines, circuits, maxOutput - |result|))
      decreases |lines|
    {
      var failed;
      ghost var budget := maxOutput - |result|;
      lines, result, failed := DecodeStep(lines, circuits, budget, result);
      if failed.Some? {
        return Failure(failed.value);
      }
    }
    DecodeDone(lines, circuits, maxOutput - |result|, result);
    return Success(result);
  }

  /** One turn of the loop: pop a line and, when it starts with `Answer`,
      pop the next one and add its solution, or fail as the parse does. */
  method DecodeStep(lines: seq<string>, circuits: bool, ghost m: int, done: seq<Solution>)
    returns (rest: seq<string>, result: seq<Solution>, failed: Option<Error>)
    requires lines != [] && m > 0
    ensures |rest| < |lines| && |done| <= |result| <= |done| + 1
    ensures failed.Some? ==> Prepend(done, Decode(lines, circuits, m)) == Failure(failed.value)
    ensures failed.None? ==>
      Prepend(done, Decode(lines, circuits, m)) == Prepend(result, Decode(rest, circuits, m - (|result| - |done|)))
  {
    var line := lines[0];
    rest, result, failed := lines[1..], done, None;
    if IsAnswerMarker(line) {
      if rest == [] {
        DecodeMissing(lines, circuits, m);
        return rest, result, Some(IndexError);
      }
      line := rest[0];
      rest := rest[1..];
      var s := ParseSolution(line, circuits);
      if s.Failure? {
        DecodeBadAnswer(lines, circuits, m);
        return rest, result, Some(s.error);
      }
      DecodeAnswer(lines, circuits, m, done);
      result := done + [s.value];
    } else {
      DecodeSkipLine(lines, circuits, m);
    }
  }

  lemma DecodeSkipLine(lines: seq<string>, circuits: bool, m: int)
    requires lines != [] && m > 0 && !IsAnswerMarker(lines[0])
    ensures Decode(lines, circuits, m) == Decode(lines[1..], circuits, m)
  {
  }

  lemma DecodeMissing(lines: seq<string>, circuits: bool, m: int)
    requires |lines| == 1 && m > 0 && IsAnswerMarker(lines[0])
    ensures Decode(lines, circuits, m) == Failure(IndexError)
  {
  }

  lemma DecodeBadAnswer(lines: seq<string>, circuits: bool, m: int)
    requires |lines| >= 2 && m > 0 && IsAnswerMarker(lines[0])
    requires ParseSolution(lines[1], circuits).Failure?
    ensures Decode(lines, circuits, m) == Failure(ParseSolution(lines[1], circuits).error)
  {
  }

  lemma DecodeDone(lines: seq<string>, circuits: bool, m: int, done: seq<Solution>)
    requires lines == [] || m <= 0
    ensures Prepend(done, Decode(lines, circuits, m)) == Success(done)
  {
    assert done + [] == done;
  }

  /** One step of the loop on an answer: the solution joins those collected. */
  lemma DecodeAnswer(lines: seq<string>, circuits: bool, m: int, done: seq<Solution>)
    requires |lines| >= 2 && m > 0 && IsAnswerMarker(lines[0])
    requires ParseSolution(lines[1], circuits).Success?
    ensures Prepend(done, Decode(lines, circuits, m))
         == Prepend(done + [ParseSolution(lines[1], circuits).value], Decode(lines[2..], circuits, m - 1))
  {
    var s := ParseSolution(lines[1], circuits).value;
    var rest := Decode(lines[2..], circuits, m - 1);
    if rest.Success? {
      assert done + ([s] + rest.value) == (done + [s]) + rest.value;
    }
  }

  // ---------------------------------------------------------------------
  // Properties of the filters

  lemma RestrictUpdate(d: Subspace, x: Name, v: int, names: set<Name>, inside: bool)
    ensures Restrict(d[x := v], names, inside)
         == if (x in names) == inside then Restrict(d, names, inside)[x := v] else Restrict(d, names, inside)
  {
  }

  lemma {:induction false} KeepNamesDict(es: Entries, names: set<Name>, inside: bool)
    ensures DictOf(KeepNames(es, names, inside)) == Restrict(DictOf(es), names, inside)
    decreases |es|
  {
    if es != [] {
      var init, last := es[..|es| - 1], es[|es| - 1];
      KeepNamesDict(init, names, inside);
      var k := KeepNames(init, names, inside);
      assert DictOf(es) == DictOf(init)[last.0 := last.1];
      RestrictUpdate(DictOf(init), last.0, last.1, names, inside);
      if (last.0 in names) == inside {
        var ks := k + [last];
        assert ks[..|ks| - 1] == k;
        assert DictOf(ks) == DictOf(k)[last.0 := last.1];
      } else {
        assert k + [] == k;
      }
    }
  }

  lemma {:induction false} PrefixedAppend(a: seq<string>, b: seq<string>, p: string)
    ensures Prefixed(a + b, p) == Prefixed(a, p) + Prefixed(b, p)
    decreases |a|
  {
    if a == [] {
      assert a + b == b;
    } else {
      PrefixedAppend(a[1..], b, p);
      assert (a + b)[0] == a[0] && (a + b)[1..] == a[1..] + b;
    }
  }

  lemma {:induction false} PrefixedAll(ts: seq<string>, p: string)
    requires forall k :: 0 <= k < |ts| ==> StartsWith(ts[k], p)
    ensures Prefixed(ts, p) == ts
    decreases |ts|
  {
    if ts != [] {
      PrefixedAll(ts[1..], p);
    }
  }

  lemma {:induction false} PrefixedNone(ts: seq<string>, p: string)
    requires forall k :: 0 <= k < |ts| ==> !StartsWith(ts[k], p)
    ensures Prefixed(ts, p) == []
    decreases |ts|
  {
    if ts != [] {
      PrefixedNone(ts[1..], p);
    }
  }

  /** `p in s` holds when `p` occurs at some offset of `s`. */
  lemma {:induction false} ContainsAt(s: string, p: string, i: nat)
    requires i + |p| <= |s| && s[i..i + |p|] == p
    ensures Contains(s, p)
    decreases i
  {
    if i > 0 {
      ContainsAt(s[1..], p, i - 1);
      assert s[1..][i - 1..i - 1 + |p|] == s[i..i + |p|];
    }
  }

  // ---------------------------------------------------------------------
  // Round trips: the atoms the solver prints decode to the subspace

  /** A name the line format carries through: no comma (it would split the
      atom) and no whitespace (it would split the line). */
  predicate PlainName(n: Name)
  {
    ',' !in n && NoSpace(n)
  }

  predicate PlainEntries(es: Entries)
  {
    forall k :: 0 <= k < |es| ==> PlainName(es[k].0)
  }

  /** Every answer names only plain variables. */
  predicate AllPlain(ss: seq<Entries>)
  {
    ss == [] || (PlainEntries(ss[0]) && AllPlain(ss[1..]))
  }

  /** `hit("n",v)` as the solver prints it. */
  function HitToken(n: Name, v: int): string
  {
    HitOpen + Quote + n + Quote + "," + IntToString(v) + ")"
  }

  /** `percolated("n")` as the solver prints it. */
  function PercolatedToken(n: Name): string
  {
    PercolatedOpen + Quote + n + Quote + ")"
  }

  function HitTokens(es: Entries): (r: seq<string>)
    ensures |r| == |es|
  {
    if es == [] then [] else [HitToken(es[0].0, es[0].1)] + HitTokens(es[1..])
  }

  function PercolatedTokens(ps: seq<Name>): (r: seq<string>)
    ensures |r| == |ps|
  {
    if ps == [] then [] else [PercolatedToken(ps[0])] + PercolatedTokens(ps[1..])
  }

  lemma {:induction false} HitTokensAt(es: Entries, k: nat)
    requires k < |es|
    ensures HitTokens(es)[k] == HitToken(es[k].0, es[k].1)
    decreases k
  {
    if k > 0 {
      HitTokensAt(es[1..], k - 1);
    }
  }

  lemma {:induction false} PercolatedTokensAt(ps: seq<Name>, k: nat)
    requires k < |ps|
    ensures PercolatedTokens(ps)[k] == PercolatedToken(ps[k])
    decreases k
  {
    if k > 0 {
      PercolatedTokensAt(ps[1..], k - 1);
    }
  }

  /** An answer line of the types other than circuits. */
  function HitLine(es: Entries): string
  {
    Join(" ", HitTokens(es))
  }

  /** An answer line for circuits: the `hit` atoms, then the `percolated` ones. */
  function CircuitLine(es: Entries, ps: seq<Name>): string
  {
    Join(" ", HitTokens(es) + PercolatedTokens(ps))
  }

  lemma LiteralsSpaceFree()
    ensures NoSpace(HitOpen) && NoSpace(PercolatedOpen) && NoSpace(Quote)
    ensures NoSpace(",") && NoSpace(")")
  {
  }

  lemma IntToStringPlain(v: int)
    ensures NoSpace(IntToString(v)) && ',' !in IntToString(v)
  {
    IntToStringShape(v);
  }

  lemma HitTokenWord(n: Name, v: int)
    requires PlainName(n)
    ensures HitToken(n, v) != "" && NoSpace(HitToken(n, v))
    ensures StartsWith(HitToken(n, v), HitOpen) && !StartsWith(HitToken(n, v), PercolatedOpen)
  {
    LiteralsSpaceFree();
    IntToStringPlain(v);
    var s := IntToString(v);
    NoSpaceConcat(HitOpen, Quote);
    NoSpaceConcat(HitOpen + Quote, n);
    NoSpaceConcat(HitOpen + Quote + n, Quote);
    NoSpaceConcat(HitOpen + Quote + n + Quote, ",");
    NoSpaceConcat(HitOpen + Quote + n + Quote + ",", s);
    NoSpaceConcat(HitOpen + Quote + n + Quote + "," + s, ")");
    assert HitToken(n, v)[..|HitOpen|] == HitOpen;
    assert HitToken(n, v)[0] == 'h';
  }

  lemma PercolatedTokenWord(n: Name)
    requires PlainName(n)
    ensures PercolatedToken(n) != "" && NoSpace(PercolatedToken(n))
    ensures StartsWith(PercolatedToken(n), PercolatedOpen) && !StartsWith(PercolatedToken(n), HitOpen)
  {
    LiteralsSpaceFree();
    NoSpaceConcat(PercolatedOpen, Quote);
    NoSpaceConcat(PercolatedOpen + Quote, n);
    NoSpaceConcat(PercolatedOpen + Quote + n, Quote);
    NoSpaceConcat(PercolatedOpen + Quote + n + Quote, ")");
    assert PercolatedToken(n)[..|PercolatedOpen|] == PercolatedOpen;
    assert PercolatedToken(n)[0] == 'p';
  }

  /** `x[4:-1].split(",")` on `hit("n",v)` gives `"n"` and `v`'s digits. */
  lemma HitTokenRoundTrip(n: Name, v: int)
    requires PlainName(n)
    ensures ParseHitToken(HitToken(n, v)) == Success((n, v))
  {
    var x, s, q := HitToken(n, v), IntToString(v), Quote + n + Quote;
    IntToStringPlain(v);
    assert x == HitOpen + q + [','] + s + ")";
    assert Slice(x, 4, -1) == q + [','] + s;
    assert ',' !in q;
    SplitSeparated(q, s, ',');
    SplitWhole(s, ',');
    assert Split(Slice(x, 4, -1), ',') == [q, s];
    assert Slice(q, 1, -1) == n;
    ParseIntOfIntToString(v);
  }

  /** `x[12:-2]` on `percolated("n")` gives `n`. */
  lemma PercolatedTokenName(n: Name)
    ensures Slice(PercolatedToken(n), 12, -2) == n
  {
    var x := PercolatedToken(n);
    assert x[12..|x| - 2] == n;
  }

  lemma ParseHitTokensCons(t: string, ts: seq<string>, e: (Name, int), es: Entries)
    requires ParseHitToken(t) == Success(e) && ParseHitTokens(ts) == Success(es)
    ensures ParseHitTokens([t] + ts) == Success([e] + es)
  {
    assert ([t] + ts)[0] == t && ([t] + ts)[1..] == ts;
  }

  lemma {:induction false} HitTokensRoundTrip(es: Entries)
    requires PlainEntries(es)
    ensures ParseHitTokens(HitTokens(es)) == Success(es)
    decreases |es|
  {
    if es != [] {
      HitTokenRoundTrip(es[0].0, es[0].1);
      HitTokensRoundTrip(es[1..]);
      ParseHitTokensCons(HitToken(es[0].0, es[0].1), HitTokens(es[1..]), es[0], es[1..]);
      assert [es[0]] + es[1..] == es;
    }
  }

  /** Decoding an answer line of `hit` atoms gives the map from each name
      to its value (the last one, should a name repeat). */
  lemma HitLineRoundTrip(es: Entries)
    requires PlainEntries(es)
    ensures ParseHitLine(HitLine(es)) == Success(DictOf(es))
  {
    forall k | 0 <= k < |es| ensures HitTokens(es)[k] != "" && NoSpace(HitTokens(es)[k]) {
      HitTokensAt(es, k);
      HitTokenWord(es[k].0, es[k].1);
    }
    WordsJoin(HitTokens(es));
    HitTokensRoundTrip(es);
  }

  lemma CircuitTokens(es: Entries, ps: seq<Name>)
    requires PlainEntries(es) && forall k :: 0 <= k < |ps| ==> PlainName(ps[k])
    ensures Words(CircuitLine(es, ps)) == HitTokens(es) + PercolatedTokens(ps)
    ensures Prefixed(HitTokens(es) + PercolatedTokens(ps), HitOpen) == HitTokens(es)
    ensures Prefixed(HitTokens(es) + PercolatedTokens(ps), PercolatedOpen) == PercolatedTokens(ps)
  {
    var hs, pts := HitTokens(es), PercolatedTokens(ps);
    forall k | 0 <= k < |hs| ensures hs[k] != "" && NoSpace(hs[k]) && StartsWith(hs[k], HitOpen) && !StartsWith(hs[k], PercolatedOpen) {
      HitTokensAt(es, k);
      HitTokenWord(es[k].0, es[k].1);
    }
    forall k | 0 <= k < |pts| ensures pts[k] != "" && NoSpace(pts[k]) && StartsWith(pts[k], PercolatedOpen) && !StartsWith(pts[k], HitOpen) {
      PercolatedTokensAt(ps, k);
      PercolatedTokenWord(ps[k]);
    }
    WordsJoin(hs + pts);
    PrefixedAppend(hs, pts, HitOpen);
    PrefixedAll(hs, HitOpen);
    PrefixedNone(pts, HitOpen);
    PrefixedAppend(hs, pts, PercolatedOpen);
    PrefixedNone(hs, PercolatedOpen);
    PrefixedAll(pts, PercolatedOpen);
    assert hs + [] == hs;
    assert [] + pts == pts;
  }

  /** Decoding a circuits answer splits the fixed variables into those
      named percolated and the rest, each with its value. */
  lemma CircuitLineRoundTrip(es: Entries, ps: seq<Name>)
    requires PlainEntries(es) && forall k :: 0 <= k < |ps| ==> PlainName(ps[k])
    ensures ParseCircuitLine(CircuitLine(es, ps))
         == Success((Restrict(DictOf(es), set p | p in ps, false), Restrict(DictOf(es), set p | p in ps, true)))
  {
    var line, pts := CircuitLine(es, ps), PercolatedTokens(ps);
    assert ParseHitTokens(Prefixed(Words(line), HitOpen)) == Success(es) by {
      CircuitTokens(es, ps);
      HitTokensRoundTrip(es);
    }
    assert PercNames(Prefixed(Words(line), PercolatedOpen)) == ps by {
      CircuitTokens(es, ps);
      forall k | 0 <= k < |ps| ensures PercNames(pts)[k] == ps[k] {
        PercolatedTokensAt(ps, k);
        PercolatedTokenName(ps[k]);
      }
    }
    CircuitLineOf(line, es, ps);
  }

  /** The circuits answer of a line whose `hit` atoms read as `es` and whose
      `percolated` atoms name `ps`. */
  lemma CircuitLineOf(line: string, es: Entries, ps: seq<Name>)
    requires ParseHitTokens(Prefixed(Words(line), HitOpen)) == Success(es)
    requires PercNames(Prefixed(Words(line), PercolatedOpen)) == ps
    ensures ParseCircuitLine(line)
         == Success((Restrict(DictOf(es), set p | p in ps, false), Restrict(DictOf(es), set p | p in ps, true)))
  {
    var names := set p | p in ps;
    var perc := DictOf(KeepNames(es, names, true));
    assert ParseCircuitLine(line) == Success((DictOf(KeepNames(es, perc.Keys, false)), perc));
    KeepRestrict(es, names);
  }

  /** The two `dict` comprehensions of the circuits decoding are the
      restrictions of the `hit` map to the percolated names and to the rest. */
  lemma KeepRestrict(es: Entries, names: set<Name>)
    ensures var perc := DictOf(KeepNames(es, names, true));
      && perc == Restrict(DictOf(es), names, true)
      && DictOf(KeepNames(es, perc.Keys, false)) == Restrict(DictOf(es), names, false)
  {
    var perc := DictOf(KeepNames(es, names, true));
    KeepNamesDict(es, names, true);
    KeepNamesDict(es, perc.Keys, false);
    assert Restrict(DictOf(es), perc.Keys, false) == Restrict(DictOf(es), names, false);
  }

  // ---------------------------------------------------------------------
  // The circuits decoding as written, and what it does to a name holding `hit`

  lemma {:induction false} ContainingAll(ts: seq<string>, p: string)
    requires forall k :: 0 <= k < |ts| ==> Contains(ts[k], p)
    ensures Containing(ts, p) == ts
    decreases |ts|
  {
    if ts != [] {
      ContainingAll(ts[1..], p);
    }
  }

  /** A `percolated` atom whose name holds `hit` is taken for a `hit` atom by
      the substring test; it has no comma after `x[4:-1]`, so `x[1]` raises
      `IndexError` and the whole circuits query fails. */
  lemma AsWrittenMisreadsPercolated(n: Name, v: int)
    requires PlainName(n) && Contains(n, HitWord)
    ensures ParseCircuitLineAsWritten(CircuitLine([(n, v)], [n])) == Failure(IndexError)
  {
    var h, pt := HitToken(n, v), PercolatedToken(n);
    SingleCircuitWords(n, v);
    BothContainHit(n, v);
    HitThenPercolatedFails(n, v);
  }

  lemma SingleCircuitWords(n: Name, v: int)
    requires PlainName(n)
    ensures Words(CircuitLine([(n, v)], [n])) == [HitToken(n, v), PercolatedToken(n)]
  {
    var h, pt := HitToken(n, v), PercolatedToken(n);
    HitTokenWord(n, v);
    PercolatedTokenWord(n);
    assert HitTokens([(n, v)]) + PercolatedTokens([n]) == [h, pt];
    WordsJoin([h, pt]);
  }

  lemma BothContainHit(n: Name, v: int)
    requires Contains(n, HitWord)
    ensures Containing([HitToken(n, v), PercolatedToken(n)], HitWord) == [HitToken(n, v), PercolatedToken(n)]
  {
    var h, pt := HitToken(n, v), PercolatedToken(n);
    var i := ContainsOffset(n, HitWord);
    assert pt[12 + i..12 + i + |HitWord|] == n[i..i + |HitWord|];
    ContainsAt(pt, HitWord, 12 + i);
    assert h[..3] == HitWord;
    ContainsAt(h, HitWord, 0);
    ContainingAll([h, pt], HitWord);
  }

  lemma HitThenPercolatedFails(n: Name, v: int)
    requires PlainName(n)
    ensures ParseHitTokens([HitToken(n, v), PercolatedToken(n)]) == Failure(IndexError)
  {
    var h, pt := HitToken(n, v), PercolatedToken(n);
    HitTokenRoundTrip(n, v);
    PercolatedTokenNoComma(n);
    assert [h, pt][1..] == [pt];
    assert ParseHitTokens([pt]) == Failure(IndexError);
  }

  /** After `x[4:-1]`, a `percolated` atom holds no comma to split on. */
  lemma PercolatedTokenNoComma(n: Name)
    requires PlainName(n)
    ensures ParseHitToken(PercolatedToken(n)) == Failure(IndexError)
  {
    var pt := PercolatedToken(n);
    var body := Slice(pt, 4, -1);
    assert body == pt[4..|pt| - 1];
    assert ',' !in body by {
      assert forall k :: 0 <= k < |body| ==> body[k] == pt[4 + k];
      assert ',' !in PercolatedOpen && ',' !in Quote;
    }
    SplitWhole(body, ',');
  }

  /** The same answer decoded with the atoms told apart by predicate. */
  lemma CorrectedReadsPercolated(n: Name, v: int)
    requires PlainName(n)
    ensures ParseCircuitLine(CircuitLine([(n, v)], [n])) == Success((map[], map[n := v]))
  {
    CircuitLineRoundTrip([(n, v)], [n]);
    SingleRestrict(n, v);
  }

  lemma SingleRestrict(n: Name, v: int)
    ensures Restrict(DictOf([(n, v)]), set p | p in [n], false) == map[]
    ensures Restrict(DictOf([(n, v)]), set p | p in [n], true) == map[n := v]
  {
    var d := DictOf([(n, v)]);
    assert d == map[n := v] by {
      assert [(n, v)][..0] == [];
    }
    var names := set p | p in [n];
    assert names == {n};
    assert Restrict(d, names, false) == map[];
    assert Restrict(d, names, true) == d;
  }

  /** A circuits answer in which the variable `white` is fixed to 1 by
      percolation: the substring test fails the query, the predicate test
      reads it. */
  lemma WhiteCounterexample()
    ensures ParseCircuitLineAsWritten(CircuitLine([("white", 1)], ["white"])) == Failure(IndexError)
    ensures ParseCircuitLine(CircuitLine([("white", 1)], ["white"])) == Success((map[], map["white" := 1]))
  {
    WhiteHoldsHit();
    AsWrittenMisreadsPercolated("white", 1);
    CorrectedReadsPercolated("white", 1);
  }

  /** The variable `white` holds `hit`. */
  lemma WhiteHoldsHit()
    ensures PlainName("white") && Contains("white", HitWord)
  {
    ContainsAt("white", HitWord, 1);
  }

  lemma {:induction false} ContainsOffset(s: string, p: string) returns (i: nat)
    requires Contains(s, p)
    ensures i + |p| <= |s| && s[i..i + |p|] == p
    decreases |s|
  {
    if s[..|p|] == p {
      i := 0;
    } else {
      var j := ContainsOffset(s[1..], p);
      assert s[j + 1..j + 1 + |p|] == s[1..][j..j + |p|];
      i := j + 1;
    }
  }

  // ---------------------------------------------------------------------
  // The budget of solutions

  /** The number of solutions a budget of `m` allows out of `n`. */
  function Within(m: int, n: nat): (k: nat)
    ensures k <= n && (m >= 0 ==> k <= m)
    ensures m <= 0 ==> k == 0
    ensures m > 0 ==> k == n || k == m
  {
    if m <= 0 then 0 else if m < n then m else n
  }

  /** Never more than `max_output` solutions. */
  lemma {:induction false} DecodeAtMost(lines: seq<string>, circuits: bool, m: int)
    ensures Decode(lines, circuits, m).Success? ==> |Decode(lines, circuits, m).value| <= Within(m, |lines|)
    decreases |lines|
  {
    if lines != [] && m > 0 {
      if !IsAnswerMarker(lines[0]) {
        DecodeAtMost(lines[1..], circuits, m);
      } else if |lines| > 1 {
        DecodeAtMost(lines[2..], circuits, m - 1);
      }
    }
  }

  /** A smaller budget gives the first solutions of a larger one: decoding
      stops once the budget is used up, and never reads past that point. */
  lemma {:induction false} DecodeBudget(lines: seq<string>, circuits: bool, m: int, m': int)
    requires 0 <= m <= m'
    requires Decode(lines, circuits, m').Success?
    ensures Decode(lines, circuits, m)
         == Success(Decode(lines, circuits, m').value[..Within(m, |Decode(lines, circuits, m').value|)])
    decreases |lines|
  {
    var all := Decode(lines, circuits, m').value;
    if lines == [] || m == 0 {
    } else if !IsAnswerMarker(lines[0]) {
      DecodeBudget(lines[1..], circuits, m, m');
    } else {
      DecodeBudget(lines[2..], circuits, m - 1, m' - 1);
      var rest := Decode(lines[2..], circuits, m' - 1).value;
      assert all == [all[0]] + rest;
      assert all[..Within(m, |all|)] == [all[0]] + rest[..Within(m - 1, |rest|)];
    }
  }

  /** When fewer solutions than the budget come back, the output held no
      more: any larger budget gives the same answer. */
  lemma {:induction false} DecodeComplete(lines: seq<string>, circuits: bool, m: int, m': int)
    requires m <= m'
    requires Decode(lines, circuits, m).Success? && |Decode(lines, circuits, m).value| < m
    ensures Decode(lines, circuits, m') == Decode(lines, circuits, m)
    decreases |lines|
  {
    if lines != [] {
      if !IsAnswerMarker(lines[0]) {
        DecodeComplete(lines[1..], circuits, m, m');
      } else if |lines| >= 2 {
        var s := ParseSolution(lines[1], circuits);
        var rest := Decode(lines[2..], circuits, m - 1);
        assert s.Success? && rest.Success?;
        assert Decode(lines, circuits, m).value == [s.value] + rest.value;
        DecodeComplete(lines[2..], circuits, m - 1, m' - 1);
      }
    }
  }

  /** Lines that do not start with `Answer` (the solver's banner and
      summary) contribute nothing. */
  lemma {:induction false} DecodeSkips(pre: seq<string>, rest: seq<string>, circuits: bool, m: int)
    requires forall k :: 0 <= k < |pre| ==> !IsAnswerMarker(pre[k])
    ensures Decode(pre + rest, circuits, m) == Decode(rest, circuits, m)
    decreases |pre|
  {
    if pre != [] && m > 0 {
      DecodeSkips(pre[1..], rest, circuits, m);
      assert (pre + rest)[1..] == pre[1..] + rest;
    } else if pre == [] {
      assert pre + rest == rest;
    }
  }

  /** The answers as the solver prints them: for each, a line starting with
      `Answer`, then the line of its atoms. */
  function AnswerBlock(answers: seq<string>): seq<string>
  {
    if answers == [] then [] else [AnswerMarker + ":", answers[0]] + AnswerBlock(answers[1..])
  }

  /** Each answer line decodes to the solution at the same position. */
  predicate ParsesTo(answers: seq<string>, sols: seq<Solution>, circuits: bool)
  {
    |answers| == |sols|
    && (answers != [] ==>
          ParseSolution(answers[0], circuits) == Success(sols[0])
          && ParsesTo(answers[1..], sols[1..], circuits))
  }

  lemma ParsesToTail(answers: seq<string>, sols: seq<Solution>, circuits: bool)
    requires answers != [] && ParsesTo(answers, sols, circuits)
    ensures ParseSolution(answers[0], circuits) == Success(sols[0])
    ensures ParsesTo(answers[1..], sols[1..], circuits)
  {
  }

  lemma AnswerBlockShape(answers: seq<string>, post: seq<string>)
    requires answers != []
    ensures var lines := AnswerBlock(answers) + post;
      && |lines| >= 2 && IsAnswerMarker(lines[0]) && lines[1] == answers[0]
      && lines[2..] == AnswerBlock(answers[1..]) + post
  {
    var lines := AnswerBlock(answers) + post;
    assert lines[0] == AnswerMarker + ":";
    assert lines[0][..|AnswerMarker|] == AnswerMarker;
    assert lines[2..] == AnswerBlock(answers[1..]) + post;
  }

  lemma DecodeAnswerLine(lines: seq<string>, circuits: bool, m: int, s: Solution, rest: seq<Solution>)
    requires |lines| >= 2 && m > 0 && IsAnswerMarker(lines[0])
    requires ParseSolution(lines[1], circuits) == Success(s)
    requires Decode(lines[2..], circuits, m - 1) == Success(rest)
    ensures Decode(lines, circuits, m) == Success([s] + rest)
  {
  }

  lemma TakeCons(sols: seq<Solution>, m: int)
    requires sols != [] && m > 0
    ensures sols[..Within(m, |sols|)] == [sols[0]] + sols[1..][..Within(m - 1, |sols| - 1)]
  {
  }

  lemma AnswerBlockStep(answers: seq<string>, sols: seq<Solution>, post: seq<string>, circuits: bool, m: int)
    requires answers != [] && m > 0 && ParsesTo(answers, sols, circuits)
    requires Decode(AnswerBlock(answers[1..]) + post, circuits, m - 1) == Success(sols[1..][..Within(m - 1, |sols[1..]|)])
    ensures Decode(AnswerBlock(answers) + post, circuits, m) == Success(sols[..Within(m, |sols|)])
  {
    ParsesToTail(answers, sols, circuits);
    AnswerBlockShape(answers, post);
    DecodeAnswerLine(AnswerBlock(answers) + post, circuits, m, sols[0], sols[1..][..Within(m - 1, |sols| - 1)]);
    TakeCons(sols, m);
  }

  /** Decoding the printed answers, followed by lines that are not answers,
      gives their solutions, the first `m` of them. */
  lemma AnswerBlockRoundTrip(answers: seq<string>, sols: seq<Solution>, post: seq<string>, circuits: bool, m: int)
    requires ParsesTo(answers, sols, circuits)
    requires forall k :: 0 <= k < |post| ==> !IsAnswerMarker(post[k])
    ensures Decode(AnswerBlock(answers) + post, circuits, m) == Success(sols[..Within(m, |sols|)])
  {
    forall j | true
      ensures Decode(post, circuits, j) == Success([])
    {
      DecodeSkips(post, [], circuits, j);
      assert post + [] == post;
    }
    AnswerBlockDecodes(answers, sols, post, circuits, m);
  }

  /** The same, for any lines after the answers that decode to nothing
      whatever the budget. */
  lemma {:induction false} AnswerBlockDecodes(answers: seq<string>, sols: seq<Solution>, post: seq<string>, circuits: bool, m: int)
    requires ParsesTo(answers, sols, circuits)
    requires forall j :: Decode(post, circuits, j) == Success([])
    ensures Decode(AnswerBlock(answers) + post, circuits, m) == Success(sols[..Within(m, |sols|)])
    decreases |answers|
  {
    if answers == [] {
      assert AnswerBlock(answers) + post == post;
      assert Decode(post, circuits, m) == Success([]);
    } else if m > 0 {
      ParsesToTail(answers, sols, circuits);
      AnswerBlockDecodes(answers[1..], sols[1..], post, circuits, m - 1);
      AnswerBlockStep(answers, sols, post, circuits, m);
    }
  }

  /** The `hit` lines of some subspaces, and the subspaces they stand for. */
  function PrintedHitLines(ss: seq<Entries>): (r: seq<string>)
    ensures |r| == |ss|
  {
    if ss == [] then [] else [HitLine(ss[0])] + PrintedHitLines(ss[1..])
  }

  function Spaces(ss: seq<Entries>): (r: seq<Solution>)
    ensures |r| == |ss|
  {
    if ss == [] then [] else [Space(DictOf(ss[0]))] + Spaces(ss[1..])
  }

  lemma AllPlainTail(ss: seq<Entries>)
    requires ss != [] && AllPlain(ss)
    ensures PlainEntries(ss[0]) && AllPlain(ss[1..])
  {
  }

  lemma HitLineSolution(es: Entries)
    requires PlainEntries(es)
    ensures ParseSolution(HitLine(es), false) == Success(Space(DictOf(es)))
  {
    HitLineRoundTrip(es);
  }

  lemma {:induction false} HitLinesParse(ss: seq<Entries>)
    requires AllPlain(ss)
    ensures ParsesTo(PrintedHitLines(ss), Spaces(ss), false)
    decreases |ss|
  {
    if ss != [] {
      AllPlainTail(ss);
      HitLinesParse(ss[1..]);
      HitLineSolution(ss[0]);
    }
  }

  /** Decoding what the solver prints for the types other than circuits —
      a banner, the answers, a summary — gives the first `max_output`
      subspaces, in order. */
  lemma DecodeRoundTrip(pre: seq<string>, ss: seq<Entries>, post: seq<string>, m: int)
    requires forall k :: 0 <= k < |pre| ==> !IsAnswerMarker(pre[k])
    requires AllPlain(ss)
    requires forall k :: 0 <= k < |post| ==> !IsAnswerMarker(post[k])
    ensures Decode(pre + AnswerBlock(PrintedHitLines(ss)) + post, false, m) == Success(Spaces(ss)[..Within(m, |ss|)])
  {
    var block := AnswerBlock(PrintedHitLines(ss));
    assert pre + block + post == pre + (block + post);
    DecodeSkips(pre, block + post, false, m);
    HitLinesParse(ss);
    AnswerBlockRoundTrip(PrintedHitLines(ss), Spaces(ss), post, false, m);
  }
}
