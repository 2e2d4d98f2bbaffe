/** Two kinds of program lines the encoder's options govern, and the
    filter that picks the lines of one kind out of a program in order. */
module Lines {
  import opened Strings

  /** A `#show` directive. */
  predicate IsShowDirective(l: string)
  {
    |l| >= 5 && l[0] == '#' && l[1] == 's' && l[2] == 'h' && l[3] == 'o' && l[4] == 'w'
  }

  /** A constraint on the number of `hit` atoms: `:- {hit(V,S)} k.` or
      `:- k {hit(V,S)}.` */
  predicate IsCardinalityConstraint(l: string)
  {
    |l| >= 4 && l[0] == ':' && l[1] == '-' && l[2] == ' ' && (l[3] == '{' || l[3] == '-' || IsDigit(l[3]))
  }

  datatype Kind = ShowDirective | CardinalityConstraint

  predicate IsKind(l: string, kind: Kind)
  {
    match kind
    case ShowDirective => IsShowDirective(l)
    case CardinalityConstraint => IsCardinalityConstraint(l)
  }

  /** The lines of `ls` of the given kind, in order. */
  function Select(ls: seq<string>, kind: Kind): (r: seq<string>)
  {
    if ls == [] then [] else (if IsKind(ls[0], kind) then [ls[0]] else []) + Select(ls[1..], kind)
  }

  lemma {:induction false} SelectAppend(a: seq<string>, b: seq<string>, kind: Kind)
    ensures Select(a + b, kind) == Select(a, kind) + Select(b, kind)
    decreases |a|
  {
    if a == [] {
      assert a + b == b;
    } else {
      assert (a + b)[1..] == a[1..] + b;
      SelectAppend(a[1..], b, kind);
    }
  }

  lemma {:induction false} SelectNone(ls: seq<string>, kind: Kind)
    requires NoneOf(ls, kind)
    ensures Select(ls, kind) == []
    decreases |ls|
  {
    if ls != [] {
      SelectNone(ls[1..], kind);
    }
  }

  lemma {:induction false} SelectAll(ls: seq<string>, kind: Kind)
    requires forall k :: 0 <= k < |ls| ==> IsKind(ls[k], kind)
    ensures Select(ls, kind) == ls
    decreases |ls|
  {
    if ls != [] {
      SelectAll(ls[1..], kind);
      assert [ls[0]] + ls[1..] == ls;
    }
  }

  /** The lines of a kind in a program made of sections (a blank line
      after the second) are those of its sections, section by section. */
  lemma SelectSections(h: seq<string>, a: seq<string>, r: seq<string>, b: seq<string>,
                       e: seq<string>, s: seq<string>, kind: Kind)
    ensures Select(h + a + [""] + r + b + e + s, kind)
         == Select(h, kind) + Select(a, kind) + Select(r, kind) + Select(b, kind) + Select(e, kind) + Select(s, kind)
  {
    var h1, h2, h3, h4, h5 := h + a, h + a + [""], h + a + [""] + r, h + a + [""] + r + b, h + a + [""] + r + b + e;
    var x1 := Select(h, kind) + Select(a, kind);
    assert Select(h1, kind) == x1 by {
      SelectAppend(h, a, kind);
    }
    assert Select(h2, kind) == x1 by {
      SelectAppend(h1, [""], kind);
      SelectNone([""], kind);
      assert Select(h1, kind) + [] == Select(h1, kind);
    }
    assert Select(h3, kind) == x1 + Select(r, kind) by {
      SelectAppend(h2, r, kind);
    }
    assert Select(h4, kind) == x1 + Select(r, kind) + Select(b, kind) by {
      SelectAppend(h3, b, kind);
    }
    assert Select(h5, kind) == x1 + Select(r, kind) + Select(b, kind) + Select(e, kind) by {
      SelectAppend(h4, e, kind);
    }
    SelectAppend(h5, s, kind);
  }

  /** The same, when only the fourth section, the fifth and the last hold
      lines of the kind. */
  lemma SelectLateSections(h: seq<string>, a: seq<string>, r: seq<string>, b: seq<string>,
                           e: seq<string>, s: seq<string>, kind: Kind)
    requires Select(h, kind) == [] && Select(a, kind) == [] && Select(r, kind) == []
    ensures Select(h + a + [""] + r + b + e + s, kind) == Select(b, kind) + Select(e, kind) + Select(s, kind)
  {
    SelectSections(h, a, r, b, e, s, kind);
    assert [] + [] + [] + Select(b, kind) == Select(b, kind);
  }

  lemma AppendEmpty(x: seq<string>)
    ensures x + [] == x
  {
  }

  /** The first character of a line, or a space for the blank line. */
  function Lead(l: string): char
  {
    if l == "" then ' ' else l[0]
  }

  /** Every line of `ls` starts with one of `leads` (a blank line with a space). */
  predicate LedBy(ls: seq<string>, leads: set<char>)
  {
    forall k :: 0 <= k < |ls| ==> Lead(ls[k]) in leads
  }

  lemma LedByAppend(a: seq<string>, b: seq<string>, la: set<char>, lb: set<char>)
    requires LedBy(a, la) && LedBy(b, lb)
    ensures LedBy(a + b, la + lb)
  {
    forall k | 0 <= k < |a + b| ensures Lead((a + b)[k]) in la + lb {
      if k >= |a| {
        assert (a + b)[k] == b[k - |a|];
      }
    }
  }

  /** No line of `ls` is of the given kind. */
  predicate NoneOf(ls: seq<string>, kind: Kind)
  {
    forall k :: 0 <= k < |ls| ==> !IsKind(ls[k], kind)
  }

  lemma NoneOfAppend(a: seq<string>, b: seq<string>, kind: Kind)
    requires NoneOf(a, kind) && NoneOf(b, kind)
    ensures NoneOf(a + b, kind)
  {
    forall k | 0 <= k < |a + b| ensures !IsKind((a + b)[k], kind) {
      if k >= |a| {
        assert (a + b)[k] == b[k - |a|];
      }
    }
  }

  /** A line whose first character no line of `ls` starts with is not in `ls`. */
  lemma NotInByLead(ls: seq<string>, l: string, leads: set<char>)
    requires LedBy(ls, leads)
    requires Lead(l) !in leads
    ensures l !in ls
  {
  }

  /** Show directives are led by `#` and cardinality constraints by `:`;
      lines led by other characters are of neither kind. */
  lemma NoneByLead(ls: seq<string>, leads: set<char>, kind: Kind)
    requires LedBy(ls, leads)
    requires kind == ShowDirective ==> '#' !in leads
    requires kind == CardinalityConstraint ==> ':' !in leads
    ensures NoneOf(ls, kind)
  {
    forall k | 0 <= k < |ls| ensures !IsKind(ls[k], kind) {
      assert Lead(ls[k]) in leads;
    }
  }

  lemma KindByLead(ls: seq<string>, leads: set<char>, kind: Kind)
    requires LedBy(ls, leads)
    requires kind == ShowDirective ==> '#' !in leads
    requires kind == CardinalityConstraint ==> ':' !in leads
    ensures Select(ls, kind) == []
  {
    NoneByLead(ls, leads, kind);
    SelectNone(ls, kind);
  }
}
