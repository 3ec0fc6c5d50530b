/** The combinatorial API-coverage tracker `CTAPICoverage` of
    lcmeval/test_generation/coverage.py. The universe of size-n combinations
    is computed once; `covered` and `uncovered` are two sets that split it,
    and only `update_coverage` changes them. */
module Coverage {
  import opened Wrappers
  import opened Combinations

  /** One row of the API catalogue file, as `csv.DictReader` yields it. */
  datatype CsvRow = CsvRow(apiName: Name, description: string, parameters: string, examples: string)

  /** The detail record kept per API name. */
  datatype ApiDetail = ApiDetail(description: string, parameters: string, examples: string)

  function DetailOf(row: CsvRow): ApiDetail {
    ApiDetail(row.description, row.parameters, row.examples)
  }

  /** Row i is the last one that mentions its name. */
  predicate LastWithName(rows: seq<CsvRow>, i: int)
    requires 0 <= i < |rows|
  {
    forall j :: i < j < |rows| ==> rows[j].apiName != rows[i].apiName
  }

  /** The names list `from_csv` builds: one entry per row, in row order. */
  function CatalogNames(rows: seq<CsvRow>): seq<Name> {
    seq(|rows|, i requires 0 <= i < |rows| => rows[i].apiName)
  }

  /** The details dict `from_csv` builds: each row overwrites the entry of
      its name. */
  function CatalogDetails(rows: seq<CsvRow>): map<Name, ApiDetail>
    decreases |rows|
  {
    if |rows| == 0 then map[]
    else CatalogDetails(rows[..|rows| - 1])[rows[|rows| - 1].apiName := DetailOf(rows[|rows| - 1])]
  }

  /** The reading loop of `from_csv`: every row's name is appended to the
      list (duplicates stay), and the detail map keeps the last row per name. */
  method ReadCatalog(rows: seq<CsvRow>) returns (names: seq<Name>, details: map<Name, ApiDetail>)
    ensures names == CatalogNames(rows) && details == CatalogDetails(rows)
    ensures |names| == |rows|
    ensures forall i :: 0 <= i < |rows| ==> names[i] == rows[i].apiName
    ensures forall x :: x in details <==> x in names
    ensures forall i :: 0 <= i < |rows| && LastWithName(rows, i) ==>
      details[rows[i].apiName] == DetailOf(rows[i])
  {
    names := [];
    details := map[];
    for i := 0 to |rows|
      invariant names == CatalogNames(rows[..i])
      invariant details == CatalogDetails(rows[..i])
    {
      CatalogSnoc(rows, i);
      names := names + [rows[i].apiName];
      details := details[rows[i].apiName := DetailOf(rows[i])];
    }
    assert rows[..|rows|] == rows;
    CatalogKeys(rows);
    forall i | 0 <= i < |rows| && LastWithName(rows, i)
      ensures rows[i].apiName in details && details[rows[i].apiName] == DetailOf(rows[i])
    {
      CatalogLast(rows, i);
    }
  }

  lemma CatalogSnoc(rows: seq<CsvRow>, i: nat)
    requires i < |rows|
    ensures CatalogNames(rows[..i + 1]) == CatalogNames(rows[..i]) + [rows[i].apiName]
    ensures CatalogDetails(rows[..i + 1]) == CatalogDetails(rows[..i])[rows[i].apiName := DetailOf(rows[i])]
  {
    assert rows[..i + 1][..i] == rows[..i];
  }

  /** The details `from_csv` reads have exactly the listed names as keys. */
  lemma {:induction false} CatalogKeys(rows: seq<CsvRow>)
    ensures forall x :: x in CatalogDetails(rows) <==> x in CatalogNames(rows)
    decreases |rows|
  {
    if |rows| > 0 {
      var n := |rows| - 1;
      CatalogKeys(rows[..n]);
      assert rows == rows[..n + 1];
      CatalogSnoc(rows, n);
    }
  }

  /** The entry of a name holds the last row with that name. */
  lemma {:induction false} CatalogLast(rows: seq<CsvRow>, i: nat)
    requires i < |rows| && LastWithName(rows, i)
    ensures rows[i].apiName in CatalogDetails(rows)
    ensures CatalogDetails(rows)[rows[i].apiName] == DetailOf(rows[i])
    decreases |rows|
  {
    var n := |rows| - 1;
    assert rows == rows[..n + 1];
    CatalogSnoc(rows, n);
    if i < n {
      assert LastWithName(rows[..n], i) by {
        forall j | i < j < n ensures rows[..n][j].apiName != rows[..n][i].apiName {
          assert rows[..n][j] == rows[j];
        }
      }
      CatalogLast(rows[..n], i);
    }
  }

  // ---------------------------------------------------------------------
  // The bookkeeping, as values

  /** The three sets the tracker keeps. */
  datatype CoverageState = CoverageState(all: set<Combination>, covered: set<Combination>, uncovered: set<Combination>)

  /** The tracker's invariant: covered and uncovered split the universe. */
  predicate Partitioned(st: CoverageState) {
    st.covered + st.uncovered == st.all && st.covered !! st.uncovered
  }

  /** The state `__init__` leaves: nothing covered. */
  function Initial(all: set<Combination>): (st: CoverageState)
    ensures Partitioned(st) && st.all == all && st.covered == {} && st.uncovered == all
  {
    CoverageState(all, {}, all - {})
  }

  /** `update_coverage(c)`: for a member of the universe, `covered.add(c)`
      and then `uncovered.remove(c)`, which raises KeyError when c is no
      longer uncovered; anything else is ignored. */
  function Report(st: CoverageState, c: Combination): (r: (Outcome<Error>, CoverageState))
    ensures r.1.all == st.all && st.covered <= r.1.covered && r.1.uncovered <= st.uncovered
    ensures r.0.Fail? <==> c in st.all && c !in st.uncovered
    ensures r.0.Fail? ==> r.0.error == KeyError
    ensures c in st.all ==> r.1.covered == st.covered + {c} && r.1.uncovered == st.uncovered - {c}
    ensures c !in st.all ==> r.1 == st
  {
    if c in st.all then
      var covered := st.covered + {c};
      if c in st.uncovered then (Pass, st.(covered := covered, uncovered := st.uncovered - {c}))
      else (Fail(KeyError), st.(covered := covered))
    else (Pass, st)
  }

  /** `covered / total * 100 if total > 0 else 0.0`, over the reals. */
  function Percentage(covered: nat, total: nat): real {
    if total > 0 then covered as real / total as real * 100.0 else 0.0
  }

  function CoverageOf(st: CoverageState): real {
    Percentage(|st.covered|, |st.all|)
  }

  lemma {:induction false} SubsetCard<T>(a: set<T>, b: set<T>)
    requires a <= b
    ensures |a| <= |b|
  {
    if a != {} {
      var x :| x in a;
      SubsetCard(a - {x}, b - {x});
    }
  }

  lemma PercentageBounds(covered: nat, total: nat)
    requires covered <= total
    ensures 0.0 <= Percentage(covered, total) <= 100.0
    ensures total > 0 && covered == total ==> Percentage(covered, total) == 100.0
  {
    if total > 0 {
      assert covered as real / total as real <= 1.0;
    }
  }

  lemma PercentageMonotone(c1: nat, c2: nat, total: nat)
    requires c1 <= c2
    ensures Percentage(c1, total) <= Percentage(c2, total)
  {
    if total > 0 {
      assert c1 as real / total as real <= c2 as real / total as real;
    }
  }

  /** The coverage of a partitioned state is a percentage between 0 and 100. */
  lemma CoverageBounds(st: CoverageState)
    requires Partitioned(st)
    ensures 0.0 <= CoverageOf(st) <= 100.0
    ensures st.all == {} ==> CoverageOf(st) == 0.0
  {
    SubsetCard(st.covered, st.all);
    PercentageBounds(|st.covered|, |st.all|);
  }

  /** Reporting keeps the universe and the split, never uncovers anything,
      and never lowers the coverage. */
  lemma ReportPreserves(st: CoverageState, c: Combination)
    requires Partitioned(st)
    ensures var st' := Report(st, c).1;
      Partitioned(st') && st'.all == st.all && st.covered <= st'.covered &&
      CoverageOf(st) <= CoverageOf(st')
  {
    var st' := Report(st, c).1;
    SubsetCard(st.covered, st'.covered);
    PercentageMonotone(|st.covered|, |st'.covered|, |st.all|);
  }

  /** Reporting a combination outside the universe changes nothing. */
  lemma ReportOutside(st: CoverageState, c: Combination)
    requires c !in st.all
    ensures Report(st, c) == (Pass, st)
  {
  }

  /** Reporting an uncovered combination moves it to the covered set. */
  lemma ReportMoves(st: CoverageState, c: Combination)
    requires Partitioned(st) && c in st.uncovered
    ensures Report(st, c) ==
      (Pass, CoverageState(st.all, st.covered + {c}, st.uncovered - {c}))
  {
  }

  /** Reporting the same member twice is not idempotent: the second report
      raises KeyError, and leaves the state as the first one left it. */
  lemma ReportTwice(st: CoverageState, c: Combination)
    requires Partitioned(st) && c in st.all
    ensures var st' := Report(st, c).1; Report(st', c) == (Fail(KeyError), st')
  {
    var st' := Report(st, c).1;
    ReportPreserves(st, c);
    assert c in st'.covered;
  }

  /** Report each combination of `cs` in turn; `ok` says whether none raised. */
  function ReportAll(st: CoverageState, cs: seq<Combination>): (r: (bool, CoverageState))
    decreases |cs|
  {
    if |cs| == 0 then (true, st)
    else
      var (o, st') := Report(st, cs[0]);
      var (ok, st'') := ReportAll(st', cs[1..]);
      (o.Pass? && ok, st'')
  }

  /** Reporting every uncovered combination once, in any order, raises
      nothing, empties `uncovered` and brings the coverage to 100 (or leaves
      it at 0 when the universe is empty). */
  lemma {:induction false} ReportAllExhausts(st: CoverageState, cs: seq<Combination>)
    requires Partitioned(st) && NoDup(cs) && SetOf(cs) == st.uncovered
    ensures ReportAll(st, cs).0
    ensures ReportAll(st, cs).1 == CoverageState(st.all, st.all, {})
    ensures CoverageOf(ReportAll(st, cs).1) == if st.all == {} then 0.0 else 100.0
    decreases |cs|
  {
    if |cs| == 0 {
      assert st.uncovered == {};
    } else {
      var c := cs[0];
      assert c in SetOf(cs);
      var st' := Report(st, c).1;
      ReportMoves(st, c);
      assert NoDup(cs[1..]) by {
        forall i, j | 0 <= i < j < |cs| - 1 ensures cs[1..][i] != cs[1..][j] {
          assert cs[1..][i] == cs[i + 1] && cs[1..][j] == cs[j + 1];
        }
      }
      assert SetOf(cs[1..]) == st'.uncovered by {
        assert cs == [c] + cs[1..];
        SetOfAppend([c], cs[1..]);
        forall m | 0 <= m < |cs| - 1 ensures cs[1..][m] != c {
          assert cs[1..][m] == cs[m + 1];
        }
      }
      ReportAllExhausts(st', cs[1..]);
    }
    PercentageBounds(|st.all|, |st.all|);
  }

  // ---------------------------------------------------------------------
  // The tracker object

  class CTAPICoverage {
    const apisDetails: map<Name, ApiDetail>
    const n: int
    const allCombinations: set<Combination>
    var covered: set<Combination>
    var uncovered: set<Combination>

    function State(): CoverageState
      reads this
    {
      CoverageState(allCombinations, covered, uncovered)
    }

    predicate Valid()
      reads this
    {
      Partitioned(State())
    }

    /** `__init__` for n >= 1; `Create` below covers the n <= 0 case, in which
        building the universe raises. */
    constructor (apisNames: seq<Name>, apisDetails: map<Name, ApiDetail>, n: int)
      requires n >= 1
      ensures this.apisDetails == apisDetails && this.n == n
      ensures ParallelCombinations(apisNames, n) == Success(allCombinations)
      ensures State() == Initial(allCombinations) && Valid()
    {
      ParallelCombinationsSpec(apisNames, n);
      var universe := ParallelCombinations(apisNames, n).value;
      this.apisDetails := apisDetails;
      this.n := n;
      this.allCombinations := universe;
      this.covered := {};
      this.uncovered := universe - {};
    }

    /** `CTAPICoverage(apis_names_list, apis_details_list, n)`, which raises
        IndexError from `parallel_combinations` when n <= 0. */
    static method Create(apisNames: seq<Name>, apisDetails: map<Name, ApiDetail>, n: int)
      returns (r: Result<CTAPICoverage, Error>)
      ensures n <= 0 <==> r == Failure(IndexError)
      ensures n >= 1 ==> r.Success?
      ensures r.Success? ==>
        && fresh(r.value) && r.value.Valid()
        && r.value.apisDetails == apisDetails && r.value.n == n
        && ParallelCombinations(apisNames, n) == Success(r.value.allCombinations)
        && r.value.State() == Initial(r.value.allCombinations)
    {
      if n <= 0 {
        ParallelCombinationsSpec(apisNames, n);
        return Failure(IndexError);
      }
      var t := new CTAPICoverage(apisNames, apisDetails, n);
      return Success(t);
    }

    /** `from_csv` with the rows of the file as input. */
    static method FromRows(rows: seq<CsvRow>, n: int) returns (r: Result<CTAPICoverage, Error>)
      ensures n <= 0 <==> r == Failure(IndexError)
      ensures n >= 1 ==> r.Success?
      ensures r.Success? ==>
        && fresh(r.value) && r.value.Valid() && r.value.n == n
        && r.value.apisDetails == CatalogDetails(rows)
        && ParallelCombinations(CatalogNames(rows), n) == Success(r.value.allCombinations)
        && r.value.State() == Initial(r.value.allCombinations)
        && forall c, i :: c in r.value.allCombinations && 0 <= i < |c| ==> c[i] in r.value.apisDetails
    {
      var names, details := ReadCatalog(rows);
      r := Create(names, details, n);
      if r.Success? {
        forall c, i | c in r.value.allCombinations && 0 <= i < |c|
          ensures c[i] in r.value.apisDetails
        {
          ParallelCombinationsMembers(names, n, c);
        }
      }
    }

    /** The dict `generate_api_combination` returns for `c`: exactly the names
        of c, each mapped to its catalogue entry. */
    ghost predicate DetailsFor(c: Combination, d: map<Name, ApiDetail>) {
      (forall x :: x in d <==> x in c) &&
      forall x :: x in d ==> x in apisDetails && d[x] == apisDetails[x]
    }

    /** `generate_api_combination`: pick any uncovered combination (the
        source picks uniformly at random) and look up its names. With nothing
        uncovered the source iterates None and raises TypeError; a name with
        no catalogue entry raises KeyError. Nothing is marked covered. */
    method GenerateApiCombination() returns (r: Result<(Combination, map<Name, ApiDetail>), Error>)
      ensures uncovered == {} <==> r == Failure(TypeError)
      ensures r.Success? ==> r.value.0 in uncovered && DetailsFor(r.value.0, r.value.1)
      ensures r.Failure? && uncovered != {} ==>
        r.error == KeyError &&
        exists c, i :: c in uncovered && 0 <= i < |c| && c[i] !in apisDetails
    {
      if uncovered == {} {
        return Failure(TypeError);
      }
      var c :| c in uncovered;
      var details: map<Name, ApiDetail> := map[];
      for i := 0 to |c|
        invariant forall x :: x in details <==> x in c[..i]
        invariant forall x :: x in details ==> x in apisDetails && details[x] == apisDetails[x]
      {
        if c[i] !in apisDetails {
          return Failure(KeyError);
        }
        details := details[c[i] := apisDetails[c[i]]];
      }
      assert c[..|c|] == c;
      return Success((c, details));
    }

    /** `calculate_coverage`: the percentage of the universe covered. */
    function CalculateCoverage(): (r: real)
      reads this
      ensures r == CoverageOf(State())
      ensures Valid() ==> 0.0 <= r <= 100.0
    {
      var total := |allCombinations|;
      var coveredCount := |covered|;
      if Valid() then CoverageBounds(State()); Percentage(coveredCount, total)
      else Percentage(coveredCount, total)
    }

    /** `update_coverage(combination)`. */
    method UpdateCoverage(combination: Combination) returns (r: Outcome<Error>)
      requires Valid()
      modifies this
      ensures Valid()
      ensures (r, State()) == Report(old(State()), combination)
      ensures old(CalculateCoverage()) <= CalculateCoverage()
    {
      ReportPreserves(State(), combination);
      if combination in allCombinations {
        covered := covered + {combination};
        if combination !in uncovered {
          return Fail(KeyError);
        }
        uncovered := uncovered - {combination};
      }
      return Pass;
    }
  }

  /** The worked example: three names a < b < c and n = 2 give the three
      pairs, each in ascending order. */
  lemma ExampleUniverse(a: Name, b: Name, c: Name)
    requires Less(a, b) && Less(b, c)
    ensures ParallelCombinations([a, b, c], 2) == Success({[a, b], [a, c], [b, c]})
  {
    assert ParallelCombinations([a, b, c], 2) == Success(SetOf(Choose([a, b, c], 2))) by {
      ParallelCombinationsSpec([a, b, c], 2);
      SortThree(a, b, c);
    }
    ChooseThree(a, b, c);
    SetOfThree([a, b], [a, c], [b, c]);
  }

  lemma SetOfThree<T>(x: T, y: T, z: T)
    ensures SetOf([x, y, z]) == {x, y, z}
  {
    var xs := [x, y, z];
    assert xs[0] == x && xs[1] == y && xs[2] == z;
  }

  /** After (A, B) is reported a third of the example's universe is covered,
      and only (A, C) and (B, C) are left to sample. */
  lemma ExampleReport()
    ensures var st := Report(Initial({["A", "B"], ["A", "C"], ["B", "C"]}), ["A", "B"]).1;
      st.uncovered == {["A", "C"], ["B", "C"]} && CoverageOf(st) == 100.0 / 3.0
  {
    var all: set<Combination> := {["A", "B"], ["A", "C"], ["B", "C"]};
    var st := Report(Initial(all), ["A", "B"]).1;
    assert ["A", "B"] != ["A", "C"] && ["A", "B"] != ["B", "C"] && ["A", "C"] != ["B", "C"] by {
      assert ["A", "B"][1] != ["A", "C"][1];
      assert ["A", "B"][0] != ["B", "C"][0];
      assert ["A", "C"][0] != ["B", "C"][0];
    }
    assert st.covered == {["A", "B"]};
    assert |all| == 3;
  }

  lemma SortThree(a: Name, b: Name, c: Name)
    requires Less(a, b) && Less(b, c)
    ensures Sort([a, b, c]) == [a, b, c]
  {
    var e: seq<Name> := [];
    assert [a, b, c] == [a] + [b, c] && [b, c] == [b] + [c] && [c] == [c] + e;
    SortCons(c, e);
    InsertFront(c, e);
    SortCons(b, [c]);
    InsertFront(b, [c]);
    SortCons(a, [b, c]);
    InsertFront(a, [b, c]);
  }

  lemma SortCons(x: Name, s: seq<Name>)
    ensures Sort([x] + s) == Insert(x, Sort(s))
  {
    assert ([x] + s)[1..] == s;
  }

  lemma InsertFront(x: Name, s: seq<Name>)
    requires |s| > 0 ==> Less(x, s[0])
    ensures Insert(x, s) == [x] + s
  {
  }

  lemma ChooseThree(a: Name, b: Name, c: Name)
    ensures Choose([a, b, c], 2) == [[a, b], [a, c], [b, c]]
  {
    ChoosePair(b, c);
    assert [a, b, c] == [a] + [b, c];
    ChooseCons(a, [b, c], 2);
    PrefixOf(a, [[b], [c]], [[a, b], [a, c]]);
  }

  lemma ChoosePair(b: Name, c: Name)
    ensures Choose([b, c], 1) == [[b], [c]]
    ensures Choose([b, c], 2) == [[b, c]]
  {
    ChooseSingle(c);
    assert [b, c] == [b] + [c];
    ChooseCons(b, [c], 1);
    PrefixOf(b, [[]], [[b]]);
    ChooseCons(b, [c], 2);
    PrefixOf(b, [[c]], [[b, c]]);
  }

  lemma ChooseSingle(c: Name)
    ensures Choose([c], 1) == [[c]]
    ensures Choose([c], 2) == []
  {
    var e: seq<Name> := [];
    assert [c] == [c] + e;
    ChooseCons(c, e, 1);
    PrefixOf(c, [[]], [[c]]);
    ChooseCons(c, e, 2);
  }

  lemma PrefixOf(x: Name, cs: seq<Combination>, expected: seq<Combination>)
    requires |cs| == |expected|
    requires forall i :: 0 <= i < |cs| ==> expected[i] == [x] + cs[i]
    ensures Prefix(x, cs) == expected
  {
  }

  /** With a single name and n = 2 the universe is empty, the coverage is 0
      and nothing is uncovered, so `GenerateApiCombination` raises TypeError
      at once. */
  lemma ExampleSingle()
    ensures ParallelCombinations(["A"], 2) == Success({})
    ensures CoverageOf(Initial({})) == 0.0
    ensures Initial({}).uncovered == {}
  {
    ParallelCombinationsTooMany(["A"], 2);
  }
}
