/** Python's ordering of strings (lexicographic by code point) and the two
    uses of `sorted` in the encoder: sorting the variable names of the
    prime implicants and sorting a projection list for its comment line. */
module Order {

  /** `a < b` on Python strings. */
  predicate Less(a: string, b: string)
    decreases |a|
  {
    if |a| == 0 then |b| > 0
    else if |b| == 0 then false
    else a[0] < b[0] || (a[0] == b[0] && Less(a[1..], b[1..]))
  }

  predicate LessOrEqual(a: string, b: string)
  {
    a == b || Less(a, b)
  }

  lemma {:induction false} LessIrreflexive(a: string)
    ensures !Less(a, a)
    decreases |a|
  {
    if |a| > 0 {
      LessIrreflexive(a[1..]);
    }
  }

  lemma {:induction false} LessTransitive(a: string, b: string, c: string)
    requires Less(a, b) && Less(b, c)
    ensures Less(a, c)
    decreases |a|
  {
    if |a| > 0 && a[0] == b[0] && b[0] == c[0] {
      LessTransitive(a[1..], b[1..], c[1..]);
    }
  }

  lemma {:induction false} LessTotal(a: string, b: string)
    ensures a == b || Less(a, b) || Less(b, a)
    decreases |a|
  {
    if |a| > 0 && |b| > 0 && a[0] == b[0] {
      LessTotal(a[1..], b[1..]);
      if a[1..] == b[1..] {
        assert a == [a[0]] + a[1..] && b == [b[0]] + b[1..];
      }
    }
  }

  lemma LessAsymmetric(a: string, b: string)
    requires Less(a, b)
    ensures !Less(b, a)
  {
    if Less(b, a) {
      LessTransitive(a, b, a);
      LessIrreflexive(a);
    }
  }

  /** Strictly increasing: sorted and without repetitions. */
  predicate StrictlySorted(s: seq<string>)
  {
    forall i, j :: 0 <= i < j < |s| ==> Less(s[i], s[j])
  }

  predicate Sorted(s: seq<string>)
  {
    forall i, j :: 0 <= i < j < |s| ==> LessOrEqual(s[i], s[j])
  }

  predicate IsLeast(m: string, s: set<string>)
  {
    m in s && forall x :: x in s ==> LessOrEqual(m, x)
  }

  lemma {:induction false} LeastExists(s: set<string>)
    requires s != {}
    ensures exists m :: IsLeast(m, s)
    decreases |s|
  {
    var x :| x in s;
    if s == {x} {
      assert IsLeast(x, s);
    } else {
      LeastExists(s - {x});
      var m :| IsLeast(m, s - {x});
      LessTotal(m, x);
      if Less(x, m) {
        forall y | y in s ensures LessOrEqual(x, y) {
          if y != x {
            assert y in s - {x};
            if y != m {
              LessTransitive(x, m, y);
            }
          }
        }
        assert IsLeast(x, s);
      } else {
        assert IsLeast(m, s);
      }
    }
  }

  lemma LeastUnique(s: set<string>)
    ensures forall m, m' :: IsLeast(m, s) && IsLeast(m', s) ==> m == m'
  {
    forall m, m' | IsLeast(m, s) && IsLeast(m', s) ensures m == m' {
      if m != m' {
        LessAsymmetric(m, m');
      }
    }
  }

  /** `sorted(s)` for a set of names: the names of `s`, each once, in
      increasing order. */
  function SortedKeys(s: set<string>): (r: seq<string>)
    ensures |r| == |s|
    ensures forall x :: x in r <==> x in s
    ensures StrictlySorted(r)
    decreases |s|
  {
    if s == {} then []
    else
      LeastExists(s);
      LeastUnique(s);
      var m :| IsLeast(m, s);
      var rest := SortedKeys(s - {m});
      assert forall j :: 0 <= j < |rest| ==> Less(m, rest[j]) by {
        forall j | 0 <= j < |rest| ensures Less(m, rest[j]) {
          assert rest[j] in s - {m};
        }
      }
      [m] + rest
  }

  /** The first element of a strictly increasing enumeration of `s` is
      the least element of `s`. */
  lemma HeadIsLeast(s: set<string>, r: seq<string>)
    requires StrictlySorted(r) && |r| > 0
    requires forall x :: x in r <==> x in s
    ensures IsLeast(r[0], s)
  {
    forall x | x in s ensures LessOrEqual(r[0], x) {
      var k :| 0 <= k < |r| && r[k] == x;
      if k > 0 {
        assert Less(r[0], r[k]);
      }
    }
  }

  lemma TailEnumerates(s: set<string>, r: seq<string>)
    requires StrictlySorted(r) && |r| > 0
    requires forall x :: x in r <==> x in s
    ensures StrictlySorted(r[1..])
    ensures forall x :: x in r[1..] <==> x in s - {r[0]}
  {
    forall x ensures x in r[1..] <==> x in s - {r[0]} {
      if x in r[1..] {
        var k :| 1 <= k < |r| && r[k] == x;
        assert Less(r[0], r[k]);
        LessIrreflexive(x);
      }
      if x in s - {r[0]} {
        var k :| 0 <= k < |r| && r[k] == x;
        assert r[1..][k - 1] == x;
      }
    }
  }

  /** Any strictly increasing enumeration of a set is the one `SortedKeys`
      gives: the iteration order over the names is determined by the names. */
  lemma {:induction false} SortedKeysUnique(s: set<string>, r: seq<string>)
    requires StrictlySorted(r)
    requires forall x :: x in r <==> x in s
    ensures r == SortedKeys(s)
    decreases |r|
  {
    var q := SortedKeys(s);
    if r == [] {
      assert forall x :: x !in s;
    } else {
      assert r[0] in s;
      HeadIsLeast(s, r);
      HeadIsLeast(s, q);
      LeastUnique(s);
      TailEnumerates(s, r);
      TailEnumerates(s, q);
      SortedKeysUnique(s - {r[0]}, r[1..]);
      SortedKeysUnique(s - {q[0]}, q[1..]);
      assert r == [r[0]] + r[1..] && q == [q[0]] + q[1..];
    }
  }

  /** Insert `x` into the sorted sequence `s`. */
  function Insert(x: string, s: seq<string>): (r: seq<string>)
    requires Sorted(s)
    ensures Sorted(r)
    ensures multiset(r) == multiset(s) + multiset{x}
  {
    if s == [] then [x]
    else if LessOrEqual(x, s[0]) then
      assert forall j :: 0 <= j < |s| ==> LessOrEqual(x, s[j]) by {
        forall j | 0 <= j < |s| ensures LessOrEqual(x, s[j]) {
          if x != s[0] && s[0] != s[j] {
            LessTransitive(x, s[0], s[j]);
          }
        }
      }
      [x] + s
    else
      var rest := Insert(x, s[1..]);
      LessTotal(x, s[0]);
      assert forall j :: 0 <= j < |rest| ==> LessOrEqual(s[0], rest[j]) by {
        forall j | 0 <= j < |rest| ensures LessOrEqual(s[0], rest[j]) {
          assert rest[j] in multiset(rest);
          assert rest[j] == x || rest[j] in multiset(s[1..]);
          if rest[j] != x {
            var k :| 0 <= k < |s[1..]| && s[1..][k] == rest[j];
            assert s[k + 1] == rest[j];
          }
        }
      }
      assert s == [s[0]] + s[1..];
      [s[0]] + rest
  }

  /** `sorted(s)` for a list of names, duplicates kept: an increasing
      rearrangement of `s`. */
  function Sort(s: seq<string>): (r: seq<string>)
    ensures Sorted(r)
    ensures multiset(r) == multiset(s)
  {
    if s == [] then []
    else
      assert s == s[..|s| - 1] + [s[|s| - 1]];
      Insert(s[|s| - 1], Sort(s[..|s| - 1]))
  }
}
