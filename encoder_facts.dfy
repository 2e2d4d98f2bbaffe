/** What the program written by `primes2asp` holds: one numbered hyper-arc
    per prime implicant, the closure and circuit rules chosen by the type,
    the cardinality constraints chosen by the bounds, and the show
    directives chosen by the projection. */
module EncoderFacts {
  import opened Basics
  import opened Strings
  import opened Order
  import opened Network
  import opened Encoder
  import opened Lines

  // ---------------------------------------------------------------------
  // The hyper-arcs

  /** `a` is a prime implicant of the network: of a known variable, for
      value 0 or 1, and listed among that variable's primes for the value. */
  predicate ArcOf(primes: PrimeTable, a: Arc)
  {
    a.name in primes && (a.value == 0 || a.value == 1) && a.prime in PrimesFor(primes[a.name], a.value)
  }

  /** The primes of the arcs that set `name` to `v`, in order. */
  function PrimesOf(arcs: seq<Arc>, name: Name, v: int): seq<Prime>
  {
    if arcs == [] then []
    else
      var a := arcs[|arcs| - 1];
      PrimesOf(arcs[..|arcs| - 1], name, v) + (if a.name == name && a.value == v then [a.prime] else [])
  }

  /** Arcs come variable by variable in sorted order, and within a variable
      those for 0 before those for 1. */
  predicate ArcBefore(a: Arc, b: Arc)
  {
    Less(a.name, b.name) || (a.name == b.name && a.value <= b.value)
  }

  predicate InArcOrder(arcs: seq<Arc>)
  {
    forall i, j :: 0 <= i < j < |arcs| ==> ArcBefore(arcs[i], arcs[j])
  }

  lemma {:induction false} PrimesOfAppend(a: seq<Arc>, b: seq<Arc>, name: Name, v: int)
    ensures PrimesOf(a + b, name, v) == PrimesOf(a, name, v) + PrimesOf(b, name, v)
    decreases |b|
  {
    if b == [] {
      assert a + b == a;
    } else {
      assert (a + b)[..|a + b| - 1] == a + b[..|b| - 1];
      PrimesOfAppend(a, b[..|b| - 1], name, v);
    }
  }

  lemma {:induction false} PrimesOfTagged(n: Name, value: int, ps: seq<Prime>, name: Name, v: int)
    ensures PrimesOf(Tagged(n, value, ps), name, v) == if n == name && value == v then ps else []
    decreases |ps|
  {
    if ps != [] {
      PrimesOfTagged(n, value, ps[..|ps| - 1], name, v);
      assert ps[..|ps| - 1] + [ps[|ps| - 1]] == ps;
    }
  }

  lemma TaggedAt(n: Name, value: int, ps: seq<Prime>, k: nat)
    requires k < |ps|
    ensures Tagged(n, value, ps)[k] == Arc(n, value, ps[k])
  {
    if k < |ps| - 1 {
      TaggedAt(n, value, ps[..|ps| - 1], k);
    }
  }

  /** The `k`-th arc of a variable: its primes for 0 come first, then those for 1. */
  lemma ArcsOfAt(primes: PrimeTable, name: Name, k: nat)
    requires name in primes && k < |ArcsOf(primes, name)|
    ensures var off, on := primes[name].off, primes[name].on;
      ArcsOf(primes, name)[k] == if k < |off| then Arc(name, 0, off[k]) else Arc(name, 1, on[k - |off|])
  {
    var off, on := primes[name].off, primes[name].on;
    if k < |off| {
      TaggedAt(name, 0, off, k);
    } else {
      TaggedAt(name, 1, on, k - |off|);
    }
  }

  /** The arcs of one variable: its primes for 0, then for 1, each once. */
  lemma ArcsOfVariable(primes: PrimeTable, name: Name)
    requires name in primes
    ensures forall k :: 0 <= k < |ArcsOf(primes, name)| ==>
      ArcsOf(primes, name)[k].name == name && ArcOf(primes, ArcsOf(primes, name)[k])
    ensures forall k, l :: 0 <= k < l < |ArcsOf(primes, name)| ==>
      ArcsOf(primes, name)[k].value <= ArcsOf(primes, name)[l].value
    ensures forall n, v ::
      PrimesOf(ArcsOf(primes, name), n, v) == (if n == name && (v == 0 || v == 1) then PrimesFor(primes[name], v) else [])
  {
    var off, on := primes[name].off, primes[name].on;
    var a := ArcsOf(primes, name);
    forall k | 0 <= k < |a|
      ensures a[k].name == name && ArcOf(primes, a[k]) && a[k].value == (if k < |off| then 0 else 1)
    {
      ArcsOfAt(primes, name, k);
      if k < |off| {
        assert off[k] in off;
      } else {
        assert on[k - |off|] in on;
      }
    }
    ArcsOfPrimes(primes, name);
  }

  lemma ArcsOfPrimes(primes: PrimeTable, name: Name)
    requires name in primes
    ensures forall n, v ::
      PrimesOf(ArcsOf(primes, name), n, v) == (if n == name && (v == 0 || v == 1) then PrimesFor(primes[name], v) else [])
  {
    var off, on := primes[name].off, primes[name].on;
    forall n, v ensures PrimesOf(ArcsOf(primes, name), n, v) == if n == name && (v == 0 || v == 1) then PrimesFor(primes[name], v) else [] {
      PrimesOfAppend(Tagged(name, 0, off), Tagged(name, 1, on), n, v);
      PrimesOfTagged(name, 0, off, n, v);
      PrimesOfTagged(name, 1, on, n, v);
    }
  }

  lemma {:induction false} ArcsValid(primes: PrimeTable, names: seq<Name>)
    requires forall n :: n in names ==> n in primes
    ensures forall k :: 0 <= k < |Arcs(primes, names)| ==>
      ArcOf(primes, Arcs(primes, names)[k]) && Arcs(primes, names)[k].name in names
    decreases |names|
  {
    if names != [] {
      var init, last := names[..|names| - 1], names[|names| - 1];
      assert forall n :: n in init ==> n in names;
      ArcsValid(primes, init);
      ArcsOfVariable(primes, last);
      var a, b := Arcs(primes, init), ArcsOf(primes, last);
      forall k | 0 <= k < |a + b| ensures ArcOf(primes, (a + b)[k]) && (a + b)[k].name in names {
        if k >= |a| {
          assert (a + b)[k] == b[k - |a|];
        }
      }
    }
  }

  lemma {:induction false} ArcsPrimes(primes: PrimeTable, names: seq<Name>)
    requires StrictlySorted(names)
    requires forall n :: n in names ==> n in primes
    ensures forall n, v ::
      PrimesOf(Arcs(primes, names), n, v) == (if n in names && (v == 0 || v == 1) then PrimesFor(primes[n], v) else [])
    decreases |names|
  {
    if names != [] {
      var init, last := names[..|names| - 1], names[|names| - 1];
      SortedSplit(names);
      ArcsPrimes(primes, init);
      ArcsOfVariable(primes, last);
      forall n, v ensures PrimesOf(Arcs(primes, names), n, v)
                          == (if n in names && (v == 0 || v == 1) then PrimesFor(primes[n], v) else []) {
        ArcsPrimesAt(primes, init, last, n, v);
      }
    }
  }

  /** The last name of a strictly sorted list is not among the others. */
  lemma SortedSplit(names: seq<Name>)
    requires StrictlySorted(names) && names != []
    ensures var init, last := names[..|names| - 1], names[|names| - 1];
      && (forall n :: n in names <==> n in init || n == last)
      && last !in init
  {
    var init, last := names[..|names| - 1], names[|names| - 1];
    assert names == init + [last];
    if last in init {
      var k :| 0 <= k < |init| && init[k] == last;
      LessIrreflexive(last);
    }
  }

  /** One step of `ArcsPrimes`, for one name and value. */
  lemma ArcsPrimesAt(primes: PrimeTable, init: seq<Name>, last: Name, n: Name, v: int)
    requires forall m :: m in init ==> m in primes
    requires last in primes && last !in init
    requires PrimesOf(Arcs(primes, init), n, v)
             == (if n in init && (v == 0 || v == 1) then PrimesFor(primes[n], v) else [])
    requires PrimesOf(ArcsOf(primes, last), n, v)
             == (if n == last && (v == 0 || v == 1) then PrimesFor(primes[last], v) else [])
    ensures PrimesOf(Arcs(primes, init) + ArcsOf(primes, last), n, v)
            == (if (n in init || n == last) && (v == 0 || v == 1) then PrimesFor(primes[n], v) else [])
  {
    var a, b := Arcs(primes, init), ArcsOf(primes, last);
    PrimesOfAppend(a, b, n, v);
    if n in init && (v == 0 || v == 1) {
      assert PrimesOf(a, n, v) + [] == PrimesOf(a, n, v);
    }
  }

  lemma {:induction false} ArcsOrdered(primes: PrimeTable, names: seq<Name>)
    requires StrictlySorted(names)
    requires forall n :: n in names ==> n in primes
    ensures InArcOrder(Arcs(primes, names))
    decreases |names|
  {
    if names != [] {
      var init, last := names[..|names| - 1], names[|names| - 1];
      ArcsOrdered(primes, init);
      ArcsValid(primes, init);
      ArcsOfVariable(primes, last);
      var a, b := Arcs(primes, init), ArcsOf(primes, last);
      forall i, j | 0 <= i < j < |a + b| ensures ArcBefore((a + b)[i], (a + b)[j]) {
        if j >= |a| && i < |a| {
          var n := a[i].name;
          var k :| 0 <= k < |init| && init[k] == n;
          assert names[k] == n && names[|names| - 1] == last;
          assert (a + b)[j] == b[j - |a|];
        } else if i >= |a| {
          assert (a + b)[i] == b[i - |a|] && (a + b)[j] == b[j - |a|];
        }
      }
    }
  }

  /** The hyper-arcs of `primes2asp`: every arc is a prime implicant of the
      network; for each variable and value, the arcs setting that variable
      to that value are exactly its primes for the value, in their order;
      and the arcs run through the variables in sorted order, the primes
      for 0 before those for 1. The `k`-th arc (from 0) gets the id
      `a<k + 1>`, so ids run from a1 to aN, one per prime. */
  lemma ArcEnumeration(primes: PrimeTable)
    ensures forall k :: 0 <= k < |AllArcs(primes)| ==> ArcOf(primes, AllArcs(primes)[k])
    ensures forall n, v :: (v == 0 || v == 1) && n in primes ==>
      PrimesOf(AllArcs(primes), n, v) == PrimesFor(primes[n], v)
    ensures forall n, v :: n !in primes ==> PrimesOf(AllArcs(primes), n, v) == []
    ensures InArcOrder(AllArcs(primes))
    ensures forall k :: 0 <= k < |AllArcs(primes)| ==> ArcLines(AllArcs(primes))[k] == ArcLine(AllArcs(primes)[k], k + 1)
  {
    var names := SortedKeys(primes.Keys);
    ArcsValid(primes, names);
    ArcsPrimes(primes, names);
    ArcsOrdered(primes, names);
    ArcLinesNumbered(AllArcs(primes));
  }

  /** The line at position k of the arc section carries the number k + 1. */
  lemma ArcLinesNumbered(arcs: seq<Arc>)
    ensures forall k :: 0 <= k < |arcs| ==> ArcLines(arcs)[k] == ArcLine(arcs[k], k + 1)
  {
  }

  /** Different positions get different arc ids. */
  lemma ArcIdInjective(j: nat, k: nat)
    requires ArcId(j) == ArcId(k)
    ensures j == k
  {
    assert NatToString(j) == ArcId(j)[1..] && NatToString(k) == ArcId(k)[1..];
    DigitsOfNat(j);
    DigitsOfNat(k);
  }

  /** Variable names and prime entries without whitespace, so that the
      facts of a hyper-arc line are its whitespace-separated words. */
  predicate SpaceFreeNames(primes: PrimeTable)
  {
    forall n :: n in primes ==>
      && NoSpace(n)
      && (forall p, e :: p in primes[n].off && e in p ==> NoSpace(e.0))
      && (forall p, e :: p in primes[n].on && e in p ==> NoSpace(e.0))
  }

  lemma IntToStringSpaceFree(i: int)
    ensures NoSpace(IntToString(i)) && |IntToString(i)| > 0
  {
    IntToStringShape(i);
  }

  /** Every fact of an arc line is a non-empty word without whitespace. */
  lemma FactSpaceFree(open: string, name: Name, value: int, k: nat)
    requires NoSpace(open) && NoSpace(name)
    ensures NoSpace(open + name + NameClose + IntToString(value) + "," + ArcId(k) + FactClose)
  {
    IntToStringSpaceFree(value);
    IntToStringSpaceFree(k);
    NoSpaceConcat("a", NatToString(k));
    var id := ArcId(k);
    NoSpaceConcat(open, name);
    NoSpaceConcat(open + name, NameClose);
    NoSpaceConcat(open + name + NameClose, IntToString(value));
    NoSpaceConcat(open + name + NameClose + IntToString(value), ",");
    NoSpaceConcat(open + name + NameClose + IntToString(value) + ",", id);
    NoSpaceConcat(open + name + NameClose + IntToString(value) + "," + id, FactClose);
  }

  lemma FactsSpaceFree(a: Arc, k: nat)
    requires NoSpace(a.name) && forall e :: e in a.prime ==> NoSpace(e.0)
    ensures forall w :: w in [TargetFact(a.name, a.value, k)] + SourceFacts(a.prime, k) ==> w != "" && NoSpace(w)
  {
    FactSpaceFree(TargetOpen, a.name, a.value, k);
    forall j | 0 <= j < |a.prime| ensures NoSpace(SourceFact(a.prime[j], k)) {
      var e := a.prime[j];
      assert e in a.prime;
      FactSpaceFree(SourceOpen, e.0, e.1, k);
    }
  }

  /** The words of an arc line are its target fact and then one source
      fact per entry of the prime, all with the same id. */
  lemma ArcLineWords(a: Arc, k: nat)
    requires NoSpace(a.name) && forall e :: e in a.prime ==> NoSpace(e.0)
    ensures Words(ArcLine(a, k)) == [TargetFact(a.name, a.value, k)] + SourceFacts(a.prime, k)
  {
    var ws := [TargetFact(a.name, a.value, k)] + SourceFacts(a.prime, k);
    FactsSpaceFree(a, k);
    assert forall j :: 0 <= j < |ws| ==> ws[j] in ws;
    WordsJoin(ws);
  }

  lemma AssembleAt(h: seq<string>, a: seq<string>, r: seq<string>, b: seq<string>,
                   e: seq<string>, s: seq<string>, i: nat)
    requires i < |a|
    ensures |h| + i < |Assemble(h, a, r, b, e, s)|
    ensures Assemble(h, a, r, b, e, s)[|h| + i] == a[i]
  {
  }

  lemma HeaderLength(date: string)
    ensures |Header(date)| == 6
  {
  }

  lemma ArcLinesAt(arcs: seq<Arc>, i: nat)
    requires i < |arcs|
    ensures ArcLines(arcs)[i] == ArcLine(arcs[i], i + 1)
  {
  }

  lemma EncodingAt(primes: PrimeTable, bounds: Option<(int, int)>, project: Option<seq<Name>>,
                   t: Option<QueryType>, extra: seq<string>, date: string, i: nat)
    requires i < |ArcLines(AllArcs(primes))|
    ensures |Header(date)| + i < |Encoding(primes, bounds, project, t, extra, date)|
    ensures Encoding(primes, bounds, project, t, extra, date)[|Header(date)| + i] == ArcLines(AllArcs(primes))[i]
  {
    AssembleAt(Header(date), ArcLines(AllArcs(primes)), RuleLines(t), BoundLines(bounds),
               extra, ShowLines(Kept(project, primes), t), i);
  }

  /** The line after the six header lines, counting from 0, is the line of
      the first arc, and so on. */
  lemma ArcLineAt(primes: PrimeTable, bounds: Option<(int, int)>, project: Option<seq<Name>>,
                  t: Option<QueryType>, extra: seq<string>, date: string, i: nat)
    requires i < |AllArcs(primes)|
    ensures 6 + i < |Encoding(primes, bounds, project, t, extra, date)|
    ensures Encoding(primes, bounds, project, t, extra, date)[6 + i] == ArcLine(AllArcs(primes)[i], i + 1)
  {
    HeaderLength(date);
    EncodingAt(primes, bounds, project, t, extra, date, i);
    ArcLinesAt(AllArcs(primes), i);
  }

  /** With space-free names, every arc has a space-free name and prime. */
  lemma ArcSpaceFree(primes: PrimeTable, i: nat)
    requires SpaceFreeNames(primes)
    requires i < |AllArcs(primes)|
    ensures NoSpace(AllArcs(primes)[i].name)
    ensures forall e :: e in AllArcs(primes)[i].prime ==> NoSpace(e.0)
  {
    var a := AllArcs(primes)[i];
    ArcsValid(primes, SortedKeys(primes.Keys));
    assert ArcOf(primes, a);
    assert a.prime in primes[a.name].off || a.prime in primes[a.name].on;
  }

  /** Line 7 + i of the program (counting from 1) is the line of the arc at
      position i: split on whitespace it is one `target` fact followed by
      one `source` fact per entry of that arc's prime, all of them with the
      id `a<i + 1>`. */
  lemma HyperArcLine(primes: PrimeTable, bounds: Option<(int, int)>, project: Option<seq<Name>>,
                     t: Option<QueryType>, extra: seq<string>, date: string, i: nat)
    requires SpaceFreeNames(primes)
    requires i < |AllArcs(primes)|
    ensures 6 + i < |Encoding(primes, bounds, project, t, extra, date)|
    ensures var a := AllArcs(primes)[i];
      var w := Words(Encoding(primes, bounds, project, t, extra, date)[6 + i]);
      |w| == 1 + |a.prime|
      && w[0] == TargetFact(a.name, a.value, i + 1)
      && forall j :: 0 <= j < |a.prime| ==> w[1 + j] == SourceFact(a.prime[j], i + 1)
  {
    ArcFacts(primes, i);
    ArcLineAt(primes, bounds, project, t, extra, date, i);
  }

  /** The words of the line of the arc at position i. */
  lemma ArcFacts(primes: PrimeTable, i: nat)
    requires SpaceFreeNames(primes)
    requires i < |AllArcs(primes)|
    ensures var a := AllArcs(primes)[i];
      var w := Words(ArcLine(a, i + 1));
      |w| == 1 + |a.prime|
      && w[0] == TargetFact(a.name, a.value, i + 1)
      && forall j :: 0 <= j < |a.prime| ==> w[1 + j] == SourceFact(a.prime[j], i + 1)
  {
    var a := AllArcs(primes)[i];
    ArcSpaceFree(primes, i);
    ArcLineWords(a, i + 1);
  }

  // ---------------------------------------------------------------------
  // Kinds of lines

  lemma ArcLinesLead(arcs: seq<Arc>)
    ensures LedBy(ArcLines(arcs), {'t'})
  {
    forall k | 0 <= k < |arcs| ensures Lead(ArcLines(arcs)[k]) == 't' {
      var a := arcs[k];
      JoinHead(" ", [TargetFact(a.name, a.value, k + 1)] + SourceFacts(a.prime, k + 1));
    }
  }

  lemma CommentLead(text: string)
    ensures Lead(Comment(text)) == '%'
  {
  }

  lemma HeaderLead(date: string)
    ensures LedBy(Header(date), {'%', ' '})
  {
  }

  /** The first character of each rule of the program. */
  lemma RuleLeads()
    ensures Lead(GeneratorRule) == '{'
    ensures Lead(ConsistencyRule) == ':' && Lead(StabilityRule) == ':'
    ensures Lead(PercolationRule) == 'i' && Lead(BijectionRule) == 'i'
    ensures Lead(UpstreamRule) == 'u' && Lead(UpstreamClosureRule) == 'u'
    ensures Lead(PercolatedRule) == 'p' && Lead(HitRule) == 'h'
  {
  }

  /** The consistency and stability constraints constrain `in_set`, not
      the number of `hit` atoms. */
  lemma ConstraintRulesKind()
    ensures !IsCardinalityConstraint(ConsistencyRule)
    ensures !IsCardinalityConstraint(StabilityRule)
  {
    JoinHead(", ", ["in_set(ID1)", "in_set(ID2)", "target(V,1,ID1)", "target(V,0,ID2)"]);
    JoinHead(", ", ["in_set(ID1)", "source(V,S,ID1)", "not in_set(ID2) : target(V,S,ID2)"]);
  }

  lemma GeneratorLinesLead()
    ensures LedBy(GeneratorLines, {'%', ' ', '{', ':'})
  {
    RuleLeads();
  }

  lemma GeneratorLinesOther()
    ensures NoneOf(GeneratorLines, CardinalityConstraint)
  {
    GeneratorLinesLead();
    ConstraintRulesKind();
    forall k | 0 <= k < |GeneratorLines| ensures !IsCardinalityConstraint(GeneratorLines[k]) {
      if k != 4 && k != 7 {
        assert Lead(GeneratorLines[k]) != ':';
      }
    }
  }

  lemma ClosureLinesLead(t: Option<QueryType>)
    ensures LedBy(ClosureLines(t), {'%', 'i'})
  {
    RuleLeads();
  }

  lemma CircuitSectionLead(t: Option<QueryType>)
    ensures LedBy(CircuitSection(t), {' ', '%', 'u', 'p'})
  {
    RuleLeads();
  }

  lemma HitLinesLead()
    ensures LedBy(HitLines, {' ', '%', 'h'})
  {
    RuleLeads();
  }

  lemma RuleLinesLead(t: Option<QueryType>)
    ensures LedBy(RuleLines(t), {'%', ' ', '{', ':', 'i', 'u', 'p', 'h'})
  {
    var g, c, x, h := GeneratorLines, ClosureLines(t), CircuitSection(t), HitLines;
    GeneratorLinesLead();
    ClosureLinesLead(t);
    CircuitSectionLead(t);
    HitLinesLead();
    LedByAppend(g, c, {'%', ' ', '{', ':'}, {'%', 'i'});
    LedByAppend(g + c, x, {'%', ' ', '{', ':', 'i'}, {' ', '%', 'u', 'p'});
    LedByAppend(g + c + x, h, {'%', ' ', '{', ':', 'i', 'u', 'p'}, {' ', '%', 'h'});
  }

  lemma BoundLinesLead(bounds: Option<(int, int)>)
    ensures LedBy(BoundLines(bounds), {'%', ' ', ':'})
  {
    if bounds.Some? {
      var (lo, hi) := bounds.value;
      CommentLead(BoundsNote + ReprBounds(lo, hi) + NoteClose);
    }
  }

  lemma ShowCommentLead(kept: seq<Name>, t: Option<QueryType>)
    ensures Lead(ShowComment(kept, t)) == '%'
  {
    if kept != [] {
      CommentLead(ProjectNote + ReprNames(Sort(kept)) + ProjectNoteClose);
    }
  }

  lemma ShowLineDirective(n: Name)
    ensures IsShowDirective(ShowLine(n))
  {
    assert ShowLine(n)[..5] == ShowHitOpen[..5];
  }

  lemma ShownLead(kept: seq<Name>, t: Option<QueryType>)
    ensures forall k :: 0 <= k < |Shown(kept, t)| ==> IsShowDirective(Shown(kept, t)[k])
  {
    if kept != [] {
      var names := ShowNameLines(kept);
      forall k | 0 <= k < |names| ensures IsShowDirective(names[k]) {
        ShowLineDirective(kept[k]);
      }
      assert IsShowDirective(ShowNothing);
      assert forall k :: 1 <= k < |Shown(kept, t)| ==> Shown(kept, t)[k] == names[k - 1];
    } else {
      assert IsShowDirective(ShowPercolated) && IsShowDirective(ShowHits);
    }
  }

  lemma ShowLinesLead(kept: seq<Name>, t: Option<QueryType>)
    ensures LedBy(ShowLines(kept, t), {'%', ' ', '#'})
  {
    ShowCommentLead(kept, t);
    ShownLead(kept, t);
  }

  // ---------------------------------------------------------------------
  // Show directives and cardinality constraints, section by section

  lemma HeaderSelects(date: string, kind: Kind)
    ensures Select(Header(date), kind) == []
  {
    HeaderLead(date);
    KindByLead(Header(date), {'%', ' '}, kind);
  }

  lemma ArcLinesSelects(arcs: seq<Arc>, kind: Kind)
    ensures Select(ArcLines(arcs), kind) == []
  {
    ArcLinesLead(arcs);
    KindByLead(ArcLines(arcs), {'t'}, kind);
  }

  /** The two rules that start with `:-` are integrity constraints on
      `in_set`; no rule is a cardinality constraint. */
  lemma RuleLinesNoCardinality(t: Option<QueryType>)
    ensures NoneOf(RuleLines(t), CardinalityConstraint)
  {
    var g, c, x, h := GeneratorLines, ClosureLines(t), CircuitSection(t), HitLines;
    GeneratorLinesOther();
    ClosureLinesLead(t);
    NoneByLead(c, {'%', 'i'}, CardinalityConstraint);
    CircuitSectionLead(t);
    NoneByLead(x, {' ', '%', 'u', 'p'}, CardinalityConstraint);
    HitLinesLead();
    NoneByLead(h, {' ', '%', 'h'}, CardinalityConstraint);
    NoneOfAppend(g, c, CardinalityConstraint);
    NoneOfAppend(g + c, x, CardinalityConstraint);
    NoneOfAppend(g + c + x, h, CardinalityConstraint);
  }

  lemma RuleLinesSelects(t: Option<QueryType>, kind: Kind)
    ensures Select(RuleLines(t), kind) == []
  {
    if kind == ShowDirective {
      RuleLinesLead(t);
      KindByLead(RuleLines(t), {'%', ' ', '{', ':', 'i', 'u', 'p', 'h'}, kind);
    } else {
      RuleLinesNoCardinality(t);
      SelectNone(RuleLines(t), kind);
    }
  }

  lemma BoundLinesShow(bounds: Option<(int, int)>)
    ensures Select(BoundLines(bounds), ShowDirective) == []
  {
    BoundLinesLead(bounds);
    KindByLead(BoundLines(bounds), {'%', ' ', ':'}, ShowDirective);
  }

  lemma BoundConstraintsKind(bounds: Option<(int, int)>)
    ensures forall k :: 0 <= k < |BoundConstraints(bounds)| ==> IsCardinalityConstraint(BoundConstraints(bounds)[k])
  {
    if bounds.Some? {
      var (lo, hi) := bounds.value;
      IntToStringShape(hi + 1);
      assert HitsAbove[0] == '{';
    }
  }

  lemma BoundLinesCardinality(bounds: Option<(int, int)>)
    ensures Select(BoundLines(bounds), CardinalityConstraint) == BoundConstraints(bounds)
  {
    if bounds.Some? {
      var (lo, hi) := bounds.value;
      var head, cs := ["", BoundComment(lo, hi)], BoundConstraints(bounds);
      CommentLead(BoundsNote + ReprBounds(lo, hi) + NoteClose);
      KindByLead(head, {'%', ' '}, CardinalityConstraint);
      BoundConstraintsKind(bounds);
      SelectAll(cs, CardinalityConstraint);
      SelectAppend(head, cs, CardinalityConstraint);
      assert [] + cs == cs;
    }
  }

  lemma ShowLinesShow(kept: seq<Name>, t: Option<QueryType>)
    ensures Select(ShowLines(kept, t), ShowDirective) == Shown(kept, t)
  {
    var head, shown := ["", ShowComment(kept, t)], Shown(kept, t);
    ShowCommentLead(kept, t);
    KindByLead(head, {'%', ' '}, ShowDirective);
    ShownLead(kept, t);
    SelectAll(shown, ShowDirective);
    SelectAppend(head, shown, ShowDirective);
    assert [] + shown == shown;
  }

  lemma ShowLinesCardinality(kept: seq<Name>, t: Option<QueryType>)
    ensures Select(ShowLines(kept, t), CardinalityConstraint) == []
  {
    ShowLinesLead(kept, t);
    KindByLead(ShowLines(kept, t), {'%', ' ', '#'}, CardinalityConstraint);
  }

  /** The show directives of the program are those among the extra lines,
      followed by `#show.` and one directive per kept name when the
      projection keeps a name, otherwise by `#show percolated/1.` and
      `#show hit/2.` for circuits and by `#show hit/2.` for every other
      type. No other line of the program is a show directive. */
  lemma ShowDirectives(primes: PrimeTable, bounds: Option<(int, int)>, project: Option<seq<Name>>,
                       t: Option<QueryType>, extra: seq<string>, date: string)
    ensures Select(Encoding(primes, bounds, project, t, extra, date), ShowDirective)
         == Select(extra, ShowDirective) + Shown(Kept(project, primes), t)
  {
    var kept := Kept(project, primes);
    var h, a, r, b, s := Header(date), ArcLines(AllArcs(primes)), RuleLines(t), BoundLines(bounds), ShowLines(kept, t);
    var e := Select(extra, ShowDirective);
    assert Select(h, ShowDirective) == [] by {
      HeaderSelects(date, ShowDirective);
    }
    assert Select(a, ShowDirective) == [] by {
      ArcLinesSelects(AllArcs(primes), ShowDirective);
    }
    assert Select(r, ShowDirective) == [] by {
      RuleLinesSelects(t, ShowDirective);
    }
    assert Select(b, ShowDirective) == [] by {
      BoundLinesShow(bounds);
    }
    assert Select(s, ShowDirective) == Shown(kept, t) by {
      ShowLinesShow(kept, t);
    }
    SelectLateSections(h, a, r, b, extra, s, ShowDirective);
    assert [] + e == e;
  }

  /** The cardinality constraints of the program are exactly those the
      bounds call for — none without bounds; with bounds `(lo, hi)`,
      `:- {hit(V,S)} lo-1.` only when `lo > 0`, and `:- hi+1 {hit(V,S)}.`
      always — followed by those among the extra lines. */
  lemma CardinalityConstraints(primes: PrimeTable, bounds: Option<(int, int)>, project: Option<seq<Name>>,
                               t: Option<QueryType>, extra: seq<string>, date: string)
    ensures Select(Encoding(primes, bounds, project, t, extra, date), CardinalityConstraint)
         == BoundConstraints(bounds) + Select(extra, CardinalityConstraint)
  {
    var kept := Kept(project, primes);
    var h, a, r, b, s := Header(date), ArcLines(AllArcs(primes)), RuleLines(t), BoundLines(bounds), ShowLines(kept, t);
    var c, e := BoundConstraints(bounds), Select(extra, CardinalityConstraint);
    assert Select(h, CardinalityConstraint) == [] by {
      HeaderSelects(date, CardinalityConstraint);
    }
    assert Select(a, CardinalityConstraint) == [] by {
      ArcLinesSelects(AllArcs(primes), CardinalityConstraint);
    }
    assert Select(r, CardinalityConstraint) == [] by {
      RuleLinesSelects(t, CardinalityConstraint);
    }
    assert Select(b, CardinalityConstraint) == c by {
      BoundLinesCardinality(bounds);
    }
    assert Select(s, CardinalityConstraint) == [] by {
      ShowLinesCardinality(kept, t);
    }
    SelectLateSections(h, a, r, b, extra, s, CardinalityConstraint);
    AppendEmpty(c + e);
  }

  /** `p` ends with `s`, right after `e`, right after `b`. */
  predicate EndsWith(p: seq<string>, b: seq<string>, e: seq<string>, s: seq<string>)
  {
    var j := |p| - |s|;
    && 0 <= j - |e| - |b|
    && p[j - |e| - |b|..j - |e|] == b && p[j - |e|..j] == e && p[j..] == s
  }

  lemma AssembleTail(h: seq<string>, a: seq<string>, r: seq<string>, b: seq<string>,
                     e: seq<string>, s: seq<string>)
    ensures EndsWith(Assemble(h, a, r, b, e, s), b, e, s)
  {
    var x := h + a + [""] + r;
    var p := Assemble(h, a, r, b, e, s);
    assert p == x + b + e + s;
  }

  /** The caller's extra lines come right after the bounds section and
      right before the show section, which closes the program. */
  lemma ExtraLinesPlaced(primes: PrimeTable, bounds: Option<(int, int)>, project: Option<seq<Name>>,
                         t: Option<QueryType>, extra: seq<string>, date: string)
    ensures EndsWith(Encoding(primes, bounds, project, t, extra, date),
                     BoundLines(bounds), extra, ShowLines(Kept(project, primes), t))
  {
    AssembleTail(Header(date), ArcLines(AllArcs(primes)), RuleLines(t), BoundLines(bounds),
                 extra, ShowLines(Kept(project, primes), t));
  }

  // ---------------------------------------------------------------------
  // Rules chosen by the type

  /** The rules whose presence depends on the type. */
  predicate TypeRule(l: string)
  {
    l == PercolationRule || l == BijectionRule || l == UpstreamRule
    || l == UpstreamClosureRule || l == PercolatedRule
  }

  lemma TypeRuleLead(l: string)
    requires TypeRule(l)
    ensures Lead(l) in {'i', 'u', 'p'}
  {
    RuleLeads();
  }

  lemma InAssemble(h: seq<string>, a: seq<string>, r: seq<string>, b: seq<string>,
                   e: seq<string>, s: seq<string>, l: string)
    ensures l in Assemble(h, a, r, b, e, s)
        <==> l in h || l in a || l == "" || l in r || l in b || l in e || l in s
  {
  }

  /** Before the rule section no line of the program is a type rule. */
  lemma TypeRulesNotEarly(primes: PrimeTable, date: string, l: string)
    requires TypeRule(l)
    ensures l !in Header(date) && l !in ArcLines(AllArcs(primes)) && l != ""
  {
    TypeRuleLead(l);
    HeaderLead(date);
    NotInByLead(Header(date), l, {'%', ' '});
    ArcLinesLead(AllArcs(primes));
    NotInByLead(ArcLines(AllArcs(primes)), l, {'t'});
  }

  /** After the rule section no generated line is a type rule. */
  lemma TypeRulesNotLate(bounds: Option<(int, int)>, kept: seq<Name>, t: Option<QueryType>, l: string)
    requires TypeRule(l)
    ensures l !in BoundLines(bounds) && l !in ShowLines(kept, t)
  {
    TypeRuleLead(l);
    BoundLinesLead(bounds);
    NotInByLead(BoundLines(bounds), l, {'%', ' ', ':'});
    ShowLinesLead(kept, t);
    NotInByLead(ShowLines(kept, t), l, {'%', ' ', '#'});
  }

  /** The generator, consistency and stability rules and the `hit` rule
      are there for every type, and none of them is a type rule. */
  lemma TypeRulesNotFixed(l: string)
    requires TypeRule(l)
    ensures l !in GeneratorLines && l !in HitLines
  {
    TypeRuleLead(l);
    GeneratorLinesLead();
    NotInByLead(GeneratorLines, l, {'%', ' ', '{', ':'});
    HitLinesLead();
    NotInByLead(HitLines, l, {'%', ' ', 'h'});
  }

  lemma ClosureMembers(t: Option<QueryType>)
    ensures PercolationRule in ClosureLines(t) <==> UsesPercolation(t)
    ensures BijectionRule in ClosureLines(t) <==> !UsesPercolation(t)
    ensures UpstreamRule !in ClosureLines(t) && UpstreamClosureRule !in ClosureLines(t)
    ensures PercolatedRule !in ClosureLines(t)
  {
    RuleLeads();
    assert |PercolationRule| != |BijectionRule|;
    ClosureLinesLead(t);
    NotInByLead(ClosureLines(t), UpstreamRule, {'%', 'i'});
    NotInByLead(ClosureLines(t), UpstreamClosureRule, {'%', 'i'});
    NotInByLead(ClosureLines(t), PercolatedRule, {'%', 'i'});
  }

  lemma CircuitMembers(t: Option<QueryType>)
    ensures UpstreamRule in CircuitSection(t) <==> t == Some(Circuits)
    ensures UpstreamClosureRule in CircuitSection(t) <==> t == Some(Circuits)
    ensures PercolatedRule in CircuitSection(t) <==> t == Some(Circuits)
    ensures PercolationRule !in CircuitSection(t) && BijectionRule !in CircuitSection(t)
  {
    RuleLeads();
    CircuitSectionLead(t);
    NotInByLead(CircuitSection(t), PercolationRule, {' ', '%', 'u', 'p'});
    NotInByLead(CircuitSection(t), BijectionRule, {' ', '%', 'u', 'p'});
  }

  /** Within the rule section, the closure rule follows the type and the
      circuit rules are there for circuits only. */
  lemma TypeRulesInRules(t: Option<QueryType>)
    ensures PercolationRule in RuleLines(t) <==> UsesPercolation(t)
    ensures BijectionRule in RuleLines(t) <==> !UsesPercolation(t)
    ensures UpstreamRule in RuleLines(t) <==> t == Some(Circuits)
    ensures UpstreamClosureRule in RuleLines(t) <==> t == Some(Circuits)
    ensures PercolatedRule in RuleLines(t) <==> t == Some(Circuits)
  {
    var g, c, x, h := GeneratorLines, ClosureLines(t), CircuitSection(t), HitLines;
    assert forall l :: l in RuleLines(t) <==> l in g || l in c || l in x || l in h;
    TypeRulesNotFixed(PercolationRule);
    TypeRulesNotFixed(BijectionRule);
    TypeRulesNotFixed(UpstreamRule);
    TypeRulesNotFixed(UpstreamClosureRule);
    TypeRulesNotFixed(PercolatedRule);
    ClosureMembers(t);
    CircuitMembers(t);
  }

  /** The percolation rule is in the program exactly for percolated trap
      spaces and circuits and the bijection rule exactly for the other
      types; the upstream and percolated rules are there exactly for
      circuits. The caller's extra lines are taken not to repeat them. */
  lemma TypeRules(primes: PrimeTable, bounds: Option<(int, int)>, project: Option<seq<Name>>,
                  t: Option<QueryType>, extra: seq<string>, date: string)
    requires forall l :: l in extra ==> !TypeRule(l)
    ensures var p := Encoding(primes, bounds, project, t, extra, date);
      && (PercolationRule in p <==> t == Some(Percolated) || t == Some(Circuits))
      && (BijectionRule in p <==> !(t == Some(Percolated) || t == Some(Circuits)))
      && (UpstreamRule in p <==> t == Some(Circuits))
      && (UpstreamClosureRule in p <==> t == Some(Circuits))
      && (PercolatedRule in p <==> t == Some(Circuits))
  {
    var kept := Kept(project, primes);
    var h, a, r, b, s := Header(date), ArcLines(AllArcs(primes)), RuleLines(t), BoundLines(bounds), ShowLines(kept, t);
    forall l | TypeRule(l)
      ensures l in Encoding(primes, bounds, project, t, extra, date) <==> l in r
    {
      InAssemble(h, a, r, b, extra, s, l);
      TypeRulesNotEarly(primes, date, l);
      TypeRulesNotLate(bounds, kept, t, l);
    }
    TypeRulesInRules(t);
  }

  // ---------------------------------------------------------------------
  // Projection

  /** The kept projection: the names of the projection that are variables
      of the network, in the projection's order; nothing without one. */
  lemma KeptNames(project: Option<seq<Name>>, primes: PrimeTable)
    ensures forall n :: n in Kept(project, primes) <==> project.Some? && n in project.value && n in primes
    ensures project.None? ==> Kept(project, primes) == []
  {
  }
}
