/** The combination universe of lcmeval/test_generation/coverage.py:
    `itertools.combinations`, `generate_combinations` (one partition: the
    combinations whose smallest element is fixed) and `parallel_combinations`
    (sort the names, build one task per possible smallest element, map, and
    union the results into a set). */
module Combinations {
  import opened Wrappers

  type Name = string

  /** A combination is the tuple of its names, in sorted order. */
  type Combination = seq<Name>

  // ---------------------------------------------------------------------
  // Python's order on str

  /** Python's `a < b` on str: lexicographic by code point, a proper prefix first. */
  predicate Less(a: string, b: string)
    decreases |a|
  {
    if |a| == 0 then |b| > 0
    else if |b| == 0 then false
    else if a[0] != b[0] then a[0] < b[0]
    else Less(a[1..], b[1..])
  }

  predicate LessEq(a: string, b: string) {
    a == b || Less(a, b)
  }

  lemma {:induction false} LessIrreflexive(a: string)
    ensures !Less(a, a)
    decreases |a|
  {
    if |a| > 0 {
      LessIrreflexive(a[1..]);
    }
  }

  lemma {:induction false} LessTransitive(a: string, b: string, c: string)
    requires Less(a, b) && Less(b, c)
    ensures Less(a, c)
    decreases |a|
  {
    if |a| > 0 && a[0] == b[0] && b[0] == c[0] {
      LessTransitive(a[1..], b[1..], c[1..]);
    }
  }

  lemma {:induction false} LessTotal(a: string, b: string)
    ensures a == b || Less(a, b) || Less(b, a)
    decreases |a|
  {
    if |a| > 0 && |b| > 0 && a[0] == b[0] {
      LessTotal(a[1..], b[1..]);
      assert a == [a[0]] + a[1..] && b == [b[0]] + b[1..];
    }
  }

  lemma {:induction false} LessAsymmetric(a: string, b: string)
    requires Less(a, b)
    ensures !Less(b, a)
    decreases |a|
  {
    if |a| > 0 && a[0] == b[0] {
      LessAsymmetric(a[1..], b[1..]);
    }
  }

  // ---------------------------------------------------------------------
  // Python's sorted()

  /** Non-decreasing under Python's order. */
  predicate Sorted(s: seq<Name>) {
    forall i, j :: 0 <= i < j < |s| ==> LessEq(s[i], s[j])
  }

  /** Strictly increasing: what a combination of distinct names looks like. */
  predicate Ascending(s: seq<Name>) {
    forall i, j :: 0 <= i < j < |s| ==> Less(s[i], s[j])
  }

  predicate NoDup<T(==)>(s: seq<T>) {
    forall i, j :: 0 <= i < j < |s| ==> s[i] != s[j]
  }

  function Insert(x: Name, s: seq<Name>): (r: seq<Name>)
    ensures multiset(r) == multiset(s) + multiset{x}
  {
    if |s| == 0 then [x]
    else if LessEq(x, s[0]) then [x] + s
    else
      assert s == [s[0]] + s[1..];
      [s[0]] + Insert(x, s[1..])
  }

  /** `sorted(elements)`, as an insertion sort. */
  function Sort(s: seq<Name>): (r: seq<Name>)
    ensures multiset(r) == multiset(s)
  {
    if |s| == 0 then []
    else
      assert s == [s[0]] + s[1..];
      Insert(s[0], Sort(s[1..]))
  }

  lemma {:induction false} InsertSorted(x: Name, s: seq<Name>)
    requires Sorted(s)
    ensures Sorted(Insert(x, s))
  {
    if |s| > 0 && !LessEq(x, s[0]) {
      LessTotal(x, s[0]);
      InsertSorted(x, s[1..]);
      InsertAbove(x, s);
      ConsSorted(s[0], Insert(x, s[1..]));
    } else if |s| > 0 {
      forall j | 0 <= j < |s| ensures LessEq(x, s[j]) {
        if x != s[0] && s[0] != s[j] { LessTransitive(x, s[0], s[j]); }
      }
      ConsSorted(x, s);
    }
  }

  /** What is inserted after the head of a sorted list lies above the head. */
  lemma InsertAbove(x: Name, s: seq<Name>)
    requires Sorted(s) && |s| > 0 && Less(s[0], x)
    ensures forall j :: 0 <= j < |Insert(x, s[1..])| ==> LessEq(s[0], Insert(x, s[1..])[j])
  {
    var t := Insert(x, s[1..]);
    forall j | 0 <= j < |t| ensures LessEq(s[0], t[j]) {
      assert t[j] in multiset(t);
      if t[j] != x {
        assert t[j] in multiset(s[1..]);
        var m :| 0 <= m < |s[1..]| && s[1..][m] == t[j];
        assert s[1..][m] == s[m + 1];
      }
    }
  }

  /** A lower bound in front of a sorted list keeps it sorted. */
  lemma ConsSorted(y: Name, t: seq<Name>)
    requires Sorted(t) && forall j :: 0 <= j < |t| ==> LessEq(y, t[j])
    ensures Sorted([y] + t)
  {
    var d := [y] + t;
    forall i, j | 0 <= i < j < |d| ensures LessEq(d[i], d[j]) {
      assert d[j] == t[j - 1];
      if i > 0 { assert d[i] == t[i - 1]; }
    }
  }

  /** `sorted` returns a sorted permutation of its input. */
  lemma {:induction false} SortSorted(s: seq<Name>)
    ensures Sorted(Sort(s))
  {
    if |s| > 0 {
      SortSorted(s[1..]);
      InsertSorted(s[0], Sort(s[1..]));
    }
  }

  lemma SortedHeads(a: seq<Name>, b: seq<Name>)
    requires Sorted(a) && Sorted(b) && multiset(a) == multiset(b) && |a| > 0
    ensures |b| > 0 && a[0] == b[0]
  {
    assert a[0] in multiset(b);
    var i :| 0 <= i < |b| && b[i] == a[0];
    assert b[0] in multiset(a);
    var j :| 0 <= j < |a| && a[j] == b[0];
    assert LessEq(b[0], a[0]) && LessEq(a[0], b[0]);
    if a[0] != b[0] { LessAsymmetric(a[0], b[0]); }
  }

  lemma TailMultiset(a: seq<Name>)
    requires |a| > 0
    ensures multiset(a[1..]) == multiset(a) - multiset{a[0]}
  {
    assert a == [a[0]] + a[1..];
  }

  /** There is only one sorted permutation, so insertion sort computes the
      same list as Python's `sorted`. */
  lemma {:induction false} SortedUnique(a: seq<Name>, b: seq<Name>)
    requires Sorted(a) && Sorted(b) && multiset(a) == multiset(b)
    ensures a == b
  {
    if |a| > 0 {
      SortedHeads(a, b);
      TailMultiset(a);
      TailMultiset(b);
      assert Sorted(a[1..]) && Sorted(b[1..]);
      SortedUnique(a[1..], b[1..]);
      assert a == [a[0]] + a[1..] && b == [b[0]] + b[1..];
    } else {
      assert |multiset(b)| == 0;
    }
  }

  /** A sequence has no duplicates exactly when every multiplicity is at most one. */
  lemma {:induction false} NoDupMultiplicity(s: seq<Name>)
    ensures NoDup(s) <==> forall x :: multiset(s)[x] <= 1
  {
    if |s| > 0 {
      var r := s[1..];
      NoDupMultiplicity(r);
      assert s == [s[0]] + r;
      assert multiset(s) == multiset{s[0]} + multiset(r);
      if NoDup(s) {
        assert NoDup(r) by {
          forall i, j | 0 <= i < j < |r| ensures r[i] != r[j] {
            assert r[i] == s[i + 1] && r[j] == s[j + 1];
          }
        }
        assert s[0] !in r by {
          forall m | 0 <= m < |r| ensures r[m] != s[0] {
            assert r[m] == s[m + 1];
          }
        }
        assert s[0] !in multiset(r);
      }
      if forall x :: multiset(s)[x] <= 1 {
        assert s[0] !in multiset(r) by {
          assert multiset(s)[s[0]] == 1 + multiset(r)[s[0]];
        }
        forall x ensures multiset(r)[x] <= 1 {
          assert multiset(r)[x] <= multiset(s)[x];
        }
        forall i, j | 0 <= i < j < |s| ensures s[i] != s[j] {
          assert s[j] == r[j - 1];
          assert r[j - 1] in multiset(r);
          if i > 0 {
            assert s[i] == r[i - 1];
          }
        }
      }
    }
  }

  /** Sorting distinct names gives a strictly ascending list of the same names. */
  lemma SortDistinct(s: seq<Name>)
    requires NoDup(s)
    ensures Ascending(Sort(s)) && |Sort(s)| == |s|
    ensures forall x :: x in Sort(s) <==> x in s
  {
    var r := Sort(s);
    SortSorted(s);
    NoDupMultiplicity(s);
    NoDupMultiplicity(r);
    assert |multiset(r)| == |multiset(s)|;
    forall x ensures x in r <==> x in s {
      assert x in r <==> x in multiset(r);
      assert x in s <==> x in multiset(s);
    }
  }

  // ---------------------------------------------------------------------
  // itertools.combinations

  function Binomial(n: nat, k: nat): nat {
    if k == 0 then 1
    else if n == 0 then 0
    else Binomial(n - 1, k - 1) + Binomial(n - 1, k)
  }

  /** Put `x` in front of every combination. */
  function Prefix(x: Name, cs: seq<Combination>): (r: seq<Combination>)
    ensures |r| == |cs|
    ensures forall i :: 0 <= i < |cs| ==> r[i] == [x] + cs[i]
  {
    seq(|cs|, i requires 0 <= i < |cs| => [x] + cs[i])
  }

  /** Prefixing yields exactly the non-empty combinations that start with `x`
      and continue with one of `cs`. */
  lemma PrefixMembers(x: Name, cs: seq<Combination>, c: Combination)
    ensures c in Prefix(x, cs) <==> |c| >= 1 && c[0] == x && c[1..] in cs
  {
    var r := Prefix(x, cs);
    if c in r {
      var i :| 0 <= i < |r| && r[i] == c;
      assert c[1..] == cs[i];
    }
    if |c| >= 1 && c[0] == x && c[1..] in cs {
      var i :| 0 <= i < |cs| && cs[i] == c[1..];
      assert r[i] == c;
    }
  }

  /** `itertools.combinations(s, k)`: the k-element selections of positions of
      `s`, in the order the library emits them (those that take s[0] first). */
  function Choose(s: seq<Name>, k: nat): (r: seq<Combination>)
    ensures forall i :: 0 <= i < |r| ==> |r[i]| == k
    decreases |s|
  {
    if k == 0 then [[]]
    else if |s| == 0 then []
    else Prefix(s[0], Choose(s[1..], k - 1)) + Choose(s[1..], k)
  }

  lemma ChooseCons(x: Name, r: seq<Name>, k: nat)
    requires k > 0
    ensures Choose([x] + r, k) == Prefix(x, Choose(r, k - 1)) + Choose(r, k)
  {
    assert ([x] + r)[1..] == r;
  }

  function SetOf<T>(xs: seq<T>): set<T> {
    set x | x in xs
  }

  /** There are C(|s|, k) of them. */
  lemma {:induction false} ChooseCount(s: seq<Name>, k: nat)
    ensures |Choose(s, k)| == Binomial(|s|, k)
    decreases |s|
  {
    if k > 0 && |s| > 0 {
      var r := s[1..];
      ChooseCount(r, k - 1);
      ChooseCount(r, k);
      assert |Choose(s, k)| == |Prefix(s[0], Choose(r, k - 1))| + |Choose(r, k)|;
      assert Binomial(|s|, k) == Binomial(|r|, k - 1) + Binomial(|r|, k);
    }
  }

  /** There are none when k exceeds the number of elements. */
  lemma {:induction false} ChooseTooMany(s: seq<Name>, k: nat)
    requires k > |s|
    ensures Choose(s, k) == []
    decreases |s|
  {
    if |s| > 0 {
      ChooseTooMany(s[1..], k - 1);
      ChooseTooMany(s[1..], k);
      assert Prefix(s[0], Choose(s[1..], k - 1)) == [];
    }
  }

  /** Every element after the first of an ascending list lies above the first. */
  lemma AboveFirst(s: seq<Name>)
    requires Ascending(s) && |s| > 0
    ensures Ascending(s[1..])
    ensures forall x :: x in s[1..] ==> Less(s[0], x) && x != s[0]
  {
    LessIrreflexive(s[0]);
    forall x | x in s[1..] ensures Less(s[0], x) {
      var m :| 0 <= m < |s| - 1 && s[1..][m] == x;
      assert s[1..][m] == s[m + 1];
    }
  }

  /** The first element of an ascending list in front of an ascending
      selection of the rest keeps it ascending and inside the list. */
  lemma ConsAscending(s: seq<Name>, c: Combination)
    requires Ascending(s) && |s| > 0 && Ascending(c)
    requires forall i :: 0 <= i < |c| ==> c[i] in s[1..]
    ensures Ascending([s[0]] + c) && forall i :: 0 <= i < |c| + 1 ==> ([s[0]] + c)[i] in s
  {
    AboveFirst(s);
    var d := [s[0]] + c;
    forall i, j | 0 <= i < j < |d| ensures Less(d[i], d[j]) {
      assert d[j] == c[j - 1];
      if i > 0 { assert d[i] == c[i - 1]; }
    }
    forall i | 0 < i < |d| ensures d[i] in s {
      assert d[i] == c[i - 1];
    }
  }

  /** Every combination of an ascending list is an ascending k-sequence of
      its elements. */
  lemma {:induction false} ChooseSound(s: seq<Name>, k: nat, c: Combination)
    requires Ascending(s) && c in Choose(s, k)
    ensures |c| == k && Ascending(c) && forall i :: 0 <= i < |c| ==> c[i] in s
    decreases |s|
  {
    if k > 0 {
      var r := s[1..];
      assert Ascending(r) by { AboveFirst(s); }
      var p := Prefix(s[0], Choose(r, k - 1));
      assert c in p || c in Choose(r, k);
      if c in p {
        var i :| 0 <= i < |p| && p[i] == c;
        var c' := Choose(r, k - 1)[i];
        ChooseSound(r, k - 1, c');
        ConsAscending(s, c');
        assert c == [s[0]] + c';
      } else {
        ChooseSound(r, k, c);
        forall i | 0 <= i < |c| ensures c[i] in s {
          assert c[i] in r;
        }
      }
    }
  }

  /** Every ascending k-sequence of elements of an ascending list is one of
      its combinations. */
  lemma {:induction false} ChooseComplete(s: seq<Name>, k: nat, c: Combination)
    requires Ascending(s) && |c| == k && Ascending(c)
    requires forall i :: 0 <= i < |c| ==> c[i] in s
    ensures c in Choose(s, k)
    decreases |s|
  {
    if k == 0 {
      assert c == [];
    } else {
      assert c[0] in s;
      var s0 := s[0];
      var r := s[1..];
      var a := Choose(r, k - 1);
      assert s == [s0] + r;
      AboveFirst(s);
      if c[0] == s0 {
        var c' := c[1..];
        LessIrreflexive(s0);
        forall i | 0 <= i < |c'| ensures c'[i] in r {
          assert c'[i] == c[i + 1];
          assert c[i + 1] in s;
          assert Less(c[0], c[i + 1]);
        }
        assert Ascending(c') by {
          forall i, j | 0 <= i < j < |c'| ensures Less(c'[i], c'[j]) {
            assert c'[i] == c[i + 1] && c'[j] == c[j + 1];
          }
        }
        ChooseComplete(r, k - 1, c');
        var i :| 0 <= i < |a| && a[i] == c';
        assert c == [s0] + c';
        assert Prefix(s0, a)[i] == c;
      } else {
        assert c[0] in r;
        forall i | 0 <= i < |c| ensures c[i] in r {
          if i > 0 {
            LessTransitive(s0, c[0], c[i]);
            LessIrreflexive(s0);
          }
        }
        ChooseComplete(r, k, c);
      }
    }
  }

  /** For strictly ascending input, the combinations are exactly the ascending
      k-element sequences of its elements: the k-subsets written in order. */
  lemma ChooseSubsets(s: seq<Name>, k: nat, c: Combination)
    requires Ascending(s)
    ensures c in Choose(s, k) <==>
      |c| == k && Ascending(c) && forall i :: 0 <= i < |c| ==> c[i] in s
  {
    if c in Choose(s, k) {
      ChooseSound(s, k, c);
    }
    if |c| == k && Ascending(c) && forall i :: 0 <= i < |c| ==> c[i] in s {
      ChooseComplete(s, k, c);
    }
  }

  lemma ConsMembers(s: seq<Name>, c: Combination)
    requires |s| > 0 && forall i :: 0 <= i < |c| ==> c[i] in s[1..]
    ensures forall i :: 0 <= i < |c| + 1 ==> ([s[0]] + c)[i] in s
  {
    var d := [s[0]] + c;
    forall i | 0 < i < |d| ensures d[i] in s {
      assert d[i] == c[i - 1];
    }
  }

  /** Whatever the input, a combination has k entries, each taken from the input. */
  lemma {:induction false} ChooseMembers(s: seq<Name>, k: nat, c: Combination)
    requires c in Choose(s, k)
    ensures |c| == k && forall i :: 0 <= i < |c| ==> c[i] in s
    decreases |s|
  {
    if k > 0 {
      var r := s[1..];
      var p := Prefix(s[0], Choose(r, k - 1));
      assert c in p || c in Choose(r, k);
      if c in p {
        var i :| 0 <= i < |p| && p[i] == c;
        var c' := Choose(r, k - 1)[i];
        ChooseMembers(r, k - 1, c');
        assert c == [s[0]] + c';
        ConsMembers(s, c');
      } else {
        ChooseMembers(r, k, c);
        forall j | 0 <= j < |c| ensures c[j] in s {
          assert c[j] in r;
        }
      }
    }
  }

  /** For strictly ascending input, no combination is emitted twice. */
  lemma {:induction false} ChooseNoDup(s: seq<Name>, k: nat)
    requires Ascending(s)
    ensures NoDup(Choose(s, k))
    decreases |s|
  {
    if k > 0 && |s| > 0 {
      var r := s[1..];
      assert Ascending(r);
      ChooseNoDup(r, k - 1);
      ChooseNoDup(r, k);
      PrefixNoDup(s[0], Choose(r, k - 1));
      var p, b := Prefix(s[0], Choose(r, k - 1)), Choose(r, k);
      forall i, j | 0 <= i < |p| && 0 <= j < |b| ensures p[i] != b[j] {
        RestHeads(s, k, b[j]);
      }
      AppendNoDup(Prefix(s[0], Choose(r, k - 1)), Choose(r, k));
    }
  }

  /** A combination of the rest of an ascending list does not start with its
      first element. */
  lemma RestHeads(s: seq<Name>, k: nat, v: Combination)
    requires Ascending(s) && |s| > 0 && v in Choose(s[1..], k)
    ensures |v| == 0 || v[0] != s[0]
  {
    AboveFirst(s);
    ChooseMembers(s[1..], k, v);
  }

  lemma PrefixNoDup(x: Name, a: seq<Combination>)
    requires NoDup(a)
    ensures NoDup(Prefix(x, a)) && forall u :: u in Prefix(x, a) ==> |u| > 0 && u[0] == x
  {
    var p := Prefix(x, a);
    forall i, j | 0 <= i < j < |p| ensures p[i] != p[j] {
      assert p[i][1..] == a[i] && p[j][1..] == a[j];
    }
  }

  lemma AppendNoDup<T>(a: seq<T>, b: seq<T>)
    requires NoDup(a) && NoDup(b)
    requires forall i, j :: 0 <= i < |a| && 0 <= j < |b| ==> a[i] != b[j]
    ensures NoDup(a + b)
  {
    var all := a + b;
    forall i, j | 0 <= i < j < |all| ensures all[i] != all[j] {
      if j < |a| {
        assert all[i] == a[i] && all[j] == a[j];
      } else if i >= |a| {
        assert all[i] == b[i - |a|] && all[j] == b[j - |a|];
      } else {
        assert all[i] == a[i] && all[j] == b[j - |a|];
      }
    }
  }

  /** A duplicate-free sequence has as many distinct members as entries. */
  lemma {:induction false} SetOfCount<T>(xs: seq<T>)
    requires NoDup(xs)
    ensures |SetOf(xs)| == |xs|
  {
    if |xs| > 0 {
      SetOfCount(xs[1..]);
      assert SetOf(xs) == {xs[0]} + SetOf(xs[1..]);
      assert NoDup(xs[1..]) by {
        forall i, j | 0 <= i < j < |xs| - 1 ensures xs[1..][i] != xs[1..][j] {
          assert xs[1..][i] == xs[i + 1] && xs[1..][j] == xs[j + 1];
        }
      }
      assert xs[0] !in SetOf(xs[1..]) by {
        forall m | 0 <= m < |xs| - 1 ensures xs[1..][m] != xs[0] {
          assert xs[1..][m] == xs[m + 1];
        }
      }
    }
  }

  lemma SetOfAppend<T>(xs: seq<T>, ys: seq<T>)
    ensures SetOf(xs + ys) == SetOf(xs) + SetOf(ys)
  {
    forall x ensures x in SetOf(xs + ys) <==> x in SetOf(xs) + SetOf(ys) {
      if x in xs + ys {
        var i :| 0 <= i < |xs + ys| && (xs + ys)[i] == x;
        if i >= |xs| { assert ys[i - |xs|] == x; }
      }
      if x in ys {
        var i :| 0 <= i < |ys| && ys[i] == x;
        assert (xs + ys)[|xs| + i] == x;
      }
    }
  }

  // ---------------------------------------------------------------------
  // generate_combinations and parallel_combinations

  /** `generate_combinations((fixed, rest, k))`: the combinations whose first
      name is `fixed` and whose other k - 1 names come from `rest`. */
  function GenerateCombinations(fixed: Name, rest: seq<Name>, k: int): (r: seq<Combination>)
    ensures forall i :: 0 <= i < |r| ==> |r[i]| == k && k >= 1 && r[i][0] == fixed
  {
    var subK := k - 1;
    if subK <= 0 then
      (if k == 1 then [[fixed]] else [])
    else
      Prefix(fixed, Choose(rest, subK))
  }

  /** The k == 1 special case agrees with the general rule, so for every
      k >= 1 the result is `fixed` followed by each (k-1)-combination of
      `rest`, in order; there are C(|rest|, k - 1) of them. */
  lemma GenerateCombinationsSpec(fixed: Name, rest: seq<Name>, k: int)
    ensures k <= 0 ==> GenerateCombinations(fixed, rest, k) == []
    ensures k == 1 ==> GenerateCombinations(fixed, rest, k) == [[fixed]]
    ensures k >= 1 ==> GenerateCombinations(fixed, rest, k) == Prefix(fixed, Choose(rest, k - 1))
    ensures k >= 1 ==> |GenerateCombinations(fixed, rest, k)| == Binomial(|rest|, k - 1)
  {
    if k >= 1 {
      ChooseCount(rest, k - 1);
      if k == 1 {
        assert Choose(rest, 0) == [[]];
        assert Prefix(fixed, [[]])[0] == [fixed];
      }
    }
  }

  /** One `generate_combinations` job: `(elements[i], elements[i+1:], k)`. */
  datatype Task = Task(fixed: Name, rest: seq<Name>, k: int)

  /** The jobs `parallel_combinations` builds for `i in range(count)`. */
  function Tasks(s: seq<Name>, k: int, count: nat): (r: seq<Task>)
    requires count <= |s|
    ensures |r| == count
  {
    seq(count, i requires 0 <= i < count => Task(s[i], s[i + 1..], k))
  }

  /** `pool.map(generate_combinations, tasks)`, run in sequence. */
  function MapGenerate(tasks: seq<Task>): (r: seq<seq<Combination>>)
    ensures |r| == |tasks|
  {
    seq(|tasks|, i requires 0 <= i < |tasks| =>
      GenerateCombinations(tasks[i].fixed, tasks[i].rest, tasks[i].k))
  }

  /** `set([combo for sublist in results for combo in sublist])`. */
  function UnionAll(results: seq<seq<Combination>>): set<Combination> {
    if |results| == 0 then {} else SetOf(results[0]) + UnionAll(results[1..])
  }

  /** `parallel_combinations(elements, k)`. The loop runs over
      `range(n - k + 1)`; when k <= 0 that range reaches index n, one past the
      end of the sorted list, and `elements[i]` raises IndexError. */
  function ParallelCombinations(elements: seq<Name>, k: int): (r: Result<set<Combination>, Error>)
    ensures r.Failure? <==> k <= 0
    ensures r.Failure? ==> r.error == IndexError
  {
    var s := Sort(elements);
    var n := |s|;
    if n - k >= n then Failure(IndexError)
    else
      var count := if n - k + 1 > 0 then n - k + 1 else 0;
      Success(UnionAll(MapGenerate(Tasks(s, k, count))))
  }

  /** The jobs after the first are the jobs of the list without its head. */
  lemma TasksShift(s: seq<Name>, k: int, count: nat)
    requires 0 < count <= |s|
    ensures MapGenerate(Tasks(s, k, count))[1..] == MapGenerate(Tasks(s[1..], k, count - 1))
  {
    var rs, ts := MapGenerate(Tasks(s, k, count))[1..], MapGenerate(Tasks(s[1..], k, count - 1));
    forall i | 0 <= i < count - 1 ensures rs[i] == ts[i] {
      assert s[i + 1 + 1..] == s[1..][i + 1..];
    }
  }

  /** Fixing each of the first `count` elements in turn covers every
      k-combination, as long as no element after them could still start one. */
  lemma {:induction false} TasksCoverChoose(s: seq<Name>, k: int, count: nat)
    requires k >= 1 && count <= |s| && count >= |s| - k + 1
    ensures UnionAll(MapGenerate(Tasks(s, k, count))) == SetOf(Choose(s, k))
    decreases count
  {
    var rs := MapGenerate(Tasks(s, k, count));
    if count == 0 {
      ChooseTooMany(s, k);
    } else {
      var r := s[1..];
      TasksShift(s, k, count);
      TasksCoverChoose(r, k, count - 1);
      GenerateCombinationsSpec(s[0], r, k);
      SetOfAppend(Prefix(s[0], Choose(r, k - 1)), Choose(r, k));
    }
  }

  /** `parallel_combinations` returns, as a set, exactly what the
      single-threaded `itertools.combinations(sorted(elements), k)` yields;
      for k <= 0 it raises IndexError. */
  lemma ParallelCombinationsSpec(elements: seq<Name>, k: int)
    ensures k <= 0 ==> ParallelCombinations(elements, k) == Failure(IndexError)
    ensures k >= 1 ==>
      ParallelCombinations(elements, k) == Success(SetOf(Choose(Sort(elements), k)))
  {
    if k >= 1 {
      var s := Sort(elements);
      var count := if |s| - k + 1 > 0 then |s| - k + 1 else 0;
      TasksCoverChoose(s, k, count);
    }
  }

  /** The order in which the names are given does not matter. */
  lemma ParallelCombinationsOrder(e1: seq<Name>, e2: seq<Name>, k: int)
    requires multiset(e1) == multiset(e2)
    ensures ParallelCombinations(e1, k) == ParallelCombinations(e2, k)
  {
    assert Sort(e1) == Sort(e2) by {
      SortSorted(e1);
      SortSorted(e2);
      SortedUnique(Sort(e1), Sort(e2));
    }
    ParallelCombinationsSpec(e1, k);
    ParallelCombinationsSpec(e2, k);
  }

  /** More names requested than exist: an empty universe and no error. */
  lemma ParallelCombinationsTooMany(elements: seq<Name>, k: int)
    requires k > |elements|
    ensures ParallelCombinations(elements, k) == Success({})
  {
    ParallelCombinationsSpec(elements, k);
    assert |Sort(elements)| == |elements| by {
      assert |multiset(Sort(elements))| == |multiset(elements)|;
    }
    ChooseTooMany(Sort(elements), k);
  }

  /** For distinct names and k >= 1, the universe is the set of k-subsets of
      the names, each written in ascending order, and it has C(n, k) members. */
  lemma ParallelCombinationsSubsets(elements: seq<Name>, k: int)
    requires NoDup(elements) && k >= 1
    ensures ParallelCombinations(elements, k).Success?
    ensures forall c :: c in ParallelCombinations(elements, k).value <==>
      |c| == k && Ascending(c) && forall i :: 0 <= i < |c| ==> c[i] in elements
    ensures |ParallelCombinations(elements, k).value| == Binomial(|elements|, k)
  {
    var s := Sort(elements);
    ParallelCombinationsSpec(elements, k);
    SortDistinct(elements);
    forall c ensures c in SetOf(Choose(s, k)) <==>
      |c| == k && Ascending(c) && forall i :: 0 <= i < |c| ==> c[i] in elements
    {
      ChooseSubsets(s, k, c);
    }
    ChooseNoDup(s, k);
    SetOfCount(Choose(s, k));
    ChooseCount(s, k);
  }

  /** Every combination in the universe is made of the given names, even when
      names repeat. */
  lemma ParallelCombinationsMembers(elements: seq<Name>, k: int, c: Combination)
    requires ParallelCombinations(elements, k).Success?
    requires c in ParallelCombinations(elements, k).value
    ensures |c| == k && forall i :: 0 <= i < |c| ==> c[i] in elements
  {
    ParallelCombinationsSpec(elements, k);
    ChooseMembers(Sort(elements), k, c);
    forall i | 0 <= i < |c| ensures c[i] in elements {
      assert c[i] in multiset(Sort(elements));
    }
  }
}
