/** The de-duplication loop of `process_raw_files` in
    lcmeval/crawler/process_numpy_doc.py, which merges the crawled JSON files
    into catalogue rows. Files arrive as a sequence in listing order, each
    already parsed or marked unparsable; the rows are returned rather than
    written out. `str()` of a `parameters` value is the function `repr`. */
module ProcessNumpyDoc {
  import opened Wrappers
  import opened Strings
  import opened Coverage

  /** The `examples` member of an API record: absent, a list of strings, or
      something `"\n".join` rejects. */
  datatype Examples = NoExamples | Lines(lines: seq<string>) | NotStrings

  /** One API record. `description` is None when the member is absent;
      BadRecord is a value that is not an object. */
  datatype ApiInfo<P> = ApiInfo(description: Option<string>, parameters: Option<P>, examples: Examples) | BadRecord

  /** One element of a file's top-level array: an object mapping API names
      to records (its members in order), or something else. */
  datatype Entry<P> = Object(items: seq<(string, ApiInfo<P>)>) | NotObject

  /** A file's parsed content; Unparsable when `json.load` raises, before any
      entry is looked at. Opening the file is outside the `try` and is not
      modelled. */
  datatype Content<P> = Parsed(entries: seq<Entry<P>>) | Unparsable

  datatype RawFile<P> = RawFile(name: string, content: Content<P>)

  /** The items the nested loops visit, in order: Some member of an object
      entry, or None where `entry.items()` raises on a non-object entry. */
  type Item<P> = Option<(string, ApiInfo<P>)>

  function Members<P>(items: seq<(string, ApiInfo<P>)>): (r: seq<Item<P>>)
    ensures |r| == |items| && forall i :: 0 <= i < |items| ==> r[i] == Some(items[i])
  {
    seq(|items|, i requires 0 <= i < |items| => Some(items[i]))
  }

  function ItemsOf<P>(entry: Entry<P>): seq<Item<P>> {
    match entry
    case Object(items) => Members(items)
    case NotObject => [None]
  }

  function Flatten<P>(entries: seq<Entry<P>>): seq<Item<P>> {
    if |entries| == 0 then []
    else Flatten(entries[..|entries| - 1]) + ItemsOf(entries[|entries| - 1])
  }

  /** `f"{api_name}_{api_info['description'][:50]}"`, raising for a record
      that is not an object or has no description. */
  function Identifier<P>(item: Item<P>): (r: Result<string, Error>)
    ensures r.Success? <==> item.Some? && item.value.1.ApiInfo? && item.value.1.description.Some?
  {
    match item
    case None => Failure(TypeError)
    case Some((name, info)) =>
      if info.BadRecord? then Failure(TypeError)
      else if info.description.None? then Failure(KeyError)
      else Success(name + "_" + Take(info.description.value, 50))
  }

  /** The identifier of an emitted row, computed from the row alone. */
  function RowIdentifier(row: CsvRow): string {
    row.apiName + "_" + Take(row.description, 50)
  }

  /** The row appended for a new identifier: `parameters` defaults to the
      text of an empty list and `examples` to no lines; joining examples
      that are not strings raises. */
  function NewRow<P>(item: Item<P>, repr: P -> string): (r: Result<CsvRow, Error>)
    requires Identifier(item).Success?
    ensures r.Success? <==> !item.value.1.examples.NotStrings?
    ensures r.Success? ==>
      && r.value.apiName == item.value.0
      && r.value.description == item.value.1.description.value
      && RowIdentifier(r.value) == Identifier(item).value
  {
    var (name, info) := item.value;
    var parameters := if info.parameters.Some? then repr(info.parameters.value) else "[]";
    match info.examples
    case NotStrings => Failure(TypeError)
    case NoExamples => Success(CsvRow(name, info.description.value, parameters, Join([], "\n")))
    case Lines(lines) => Success(CsvRow(name, info.description.value, parameters, Join(lines, "\n")))
  }

  /** The rows emitted so far, one file's seen identifiers, and whether the
      file is still being read (false once an exception abandoned it). */
  datatype ScanState = ScanState(rows: seq<CsvRow>, seen: set<string>, ok: bool)

  /** One pass of the inner loop body. */
  function Step<P>(st: ScanState, item: Item<P>, repr: P -> string): (r: ScanState)
    ensures st.rows <= r.rows && |r.rows| <= |st.rows| + 1 && st.seen <= r.seen
    ensures r.ok ==> st.ok
  {
    if !st.ok then st
    else match Identifier(item)
      case Failure(_) => st.(ok := false)
      case Success(id) =>
        if id in st.seen then st
        else match NewRow(item, repr)
          case Failure(_) => st.(ok := false)
          case Success(row) => ScanState(st.rows + [row], st.seen + {id}, true)
  }

  function Scan<P>(items: seq<Item<P>>, st: ScanState, repr: P -> string): (r: ScanState)
    ensures st.rows <= r.rows && |r.rows| <= |st.rows| + |items| && st.seen <= r.seen
    ensures r.ok ==> st.ok
  {
    if |items| == 0 then st
    else Step(Scan(items[..|items| - 1], st, repr), items[|items| - 1], repr)
  }

  /** `seen[filename]` of the `defaultdict(set)`. */
  function SeenFor(seen: map<string, set<string>>, name: string): set<string> {
    if name in seen then seen[name] else {}
  }

  predicate Contributes<P>(f: RawFile<P>) {
    EndsWith(f.name, ".json") && f.content.Parsed?
  }

  /** `unique_data` and `seen` after the given files, in order. */
  function Processed<P>(files: seq<RawFile<P>>, repr: P -> string): (r: (seq<CsvRow>, map<string, set<string>>))
    ensures forall name :: name in r.1 ==> EndsWith(name, ".json")
  {
    if |files| == 0 then ([], map[])
    else
      var (rows, seen) := Processed(files[..|files| - 1], repr);
      var f := files[|files| - 1];
      if Contributes(f) then
        var st := Scan(Flatten(f.content.entries), ScanState(rows, SeenFor(seen, f.name), true), repr);
        (st.rows, seen[f.name := st.seen])
      else (rows, seen)
  }

  // ---------------------------------------------------------------------
  // The loops

  /** The `try` block for one file: the loop over its entries, left at the
      first exception with what was appended so far kept. */
  method ScanFile<P>(entries: seq<Entry<P>>, rows0: seq<CsvRow>, seen0: set<string>, repr: P -> string)
    returns (rows: seq<CsvRow>, seen: set<string>, ok: bool)
    ensures ScanState(rows, seen, ok) == Scan(Flatten(entries), ScanState(rows0, seen0, true), repr)
  {
    ghost var start := ScanState(rows0, seen0, true);
    rows, seen, ok := rows0, seen0, true;
    for e := 0 to |entries|
      invariant Scan(Flatten(entries[..e]), start, repr) == ScanState(rows, seen, true)
    {
      FlattenNext(entries, e);
      FlattenSplit(entries, e + 1);
      ScanAppend(Flatten(entries[..e]), ItemsOf(entries[e]), start, repr);
      ScanAppend(Flatten(entries[..e + 1]), Flatten(entries[e + 1..]), start, repr);
      match entries[e]
      case NotObject =>
        ScanIdle(Flatten(entries[e + 1..]), ScanState(rows, seen, false), repr);
        return rows, seen, false;
      case Object(items) =>
        rows, seen, ok := ScanMembers(items, rows, seen, repr);
        if !ok {
          ScanIdle(Flatten(entries[e + 1..]), ScanState(rows, seen, false), repr);
          return rows, seen, false;
        }
    }
    assert entries[..|entries|] == entries;
  }

  /** The inner loop over one entry's members, left at the first exception. */
  method ScanMembers<P>(items: seq<(string, ApiInfo<P>)>, rows0: seq<CsvRow>, seen0: set<string>, repr: P -> string)
    returns (rows: seq<CsvRow>, seen: set<string>, ok: bool)
    ensures ScanState(rows, seen, ok) == Scan(Members(items), ScanState(rows0, seen0, true), repr)
  {
    ghost var start := ScanState(rows0, seen0, true);
    rows, seen, ok := rows0, seen0, true;
    for j := 0 to |items|
      invariant Scan(Members(items[..j]), start, repr) == ScanState(rows, seen, true)
    {
      var item: Item<P> := Some(items[j]);
      MembersAt(items, j);
      ScanSnoc(Members(items[..j]), item, start, repr);
      var identifier := Identifier(item);
      if identifier.Failure? {
        Abandon(Members(items[..j]), item, Members(items[j + 1..]), start, repr);
        return rows, seen, false;
      }
      if identifier.value !in seen {
        var row := NewRow(item, repr);
        if row.Failure? {
          Abandon(Members(items[..j]), item, Members(items[j + 1..]), start, repr);
          return rows, seen, false;
        }
        rows := rows + [row.value];
        seen := seen + {identifier.value};
      }
    }
    assert items[..|items|] == items;
  }

  /** `process_raw_files` without the directory listing and the CSV
      writing: the rows it writes, in order. */
  method ProcessRawFiles<P>(files: seq<RawFile<P>>, repr: P -> string) returns (uniqueData: seq<CsvRow>)
    ensures uniqueData == Processed(files, repr).0
  {
    var seen: map<string, set<string>> := map[];
    uniqueData := [];
    for f := 0 to |files|
      invariant (uniqueData, seen) == Processed(files[..f], repr)
    {
      var file := files[f];
      assert files[..f + 1][..f] == files[..f];
      if EndsWith(file.name, ".json") && file.content.Parsed? {
        var fileSeen, ok;
        uniqueData, fileSeen, ok := ScanFile(file.content.entries, uniqueData, SeenFor(seen, file.name), repr);
        seen := seen[file.name := fileSeen];
      }
    }
    assert files[..|files|] == files;
  }

  // ---------------------------------------------------------------------
  // Facts about the scan

  lemma {:induction false} FlattenAppend<P>(a: seq<Entry<P>>, b: seq<Entry<P>>)
    ensures Flatten(a + b) == Flatten(a) + Flatten(b)
    decreases |b|
  {
    if |b| == 0 {
      assert a + b == a;
    } else {
      var init, last := b[..|b| - 1], b[|b| - 1];
      assert Flatten(a + b) == Flatten(a + init) + ItemsOf(last) by {
        assert a + b == (a + init) + [last];
        FlattenSnoc(a + init, last);
      }
      assert Flatten(b) == Flatten(init) + ItemsOf(last) by {
        assert b == init + [last];
        FlattenSnoc(init, last);
      }
      FlattenAppend(a, init);
    }
  }

  /** The items up to and including entry e are those before it and its own. */
  lemma FlattenNext<P>(entries: seq<Entry<P>>, e: nat)
    requires e < |entries|
    ensures Flatten(entries[..e + 1]) == Flatten(entries[..e]) + ItemsOf(entries[e])
  {
    assert entries[..e + 1] == entries[..e] + [entries[e]];
    FlattenSnoc(entries[..e], entries[e]);
  }

  /** Cutting the entries at any point cuts the items there too. */
  lemma FlattenSplit<P>(entries: seq<Entry<P>>, e: nat)
    requires e <= |entries|
    ensures Flatten(entries) == Flatten(entries[..e]) + Flatten(entries[e..])
  {
    assert entries == entries[..e] + entries[e..];
    FlattenAppend(entries[..e], entries[e..]);
  }

  lemma FlattenSnoc<P>(init: seq<Entry<P>>, last: Entry<P>)
    ensures Flatten(init + [last]) == Flatten(init) + ItemsOf(last)
  {
    assert (init + [last])[..|init|] == init;
  }

  lemma MembersAt<P>(items: seq<(string, ApiInfo<P>)>, j: nat)
    requires j < |items|
    ensures Members(items) == Members(items[..j]) + [Some(items[j])] + Members(items[j + 1..])
    ensures Members(items[..j + 1]) == Members(items[..j]) + [Some(items[j])]
  {
  }

  lemma ScanSnoc<P>(xs: seq<Item<P>>, x: Item<P>, st: ScanState, repr: P -> string)
    ensures Scan(xs + [x], st, repr) == Step(Scan(xs, st, repr), x, repr)
  {
    assert (xs + [x])[..|xs|] == xs;
  }

  /** Scanning a concatenation is scanning the second part from where the
      first one left off. */
  lemma {:induction false} ScanAppend<P>(xs: seq<Item<P>>, ys: seq<Item<P>>, st: ScanState, repr: P -> string)
    ensures Scan(xs + ys, st, repr) == Scan(ys, Scan(xs, st, repr), repr)
    decreases |ys|
  {
    if |ys| == 0 {
      assert xs + ys == xs;
    } else {
      assert (xs + ys)[..|xs + ys| - 1] == xs + ys[..|ys| - 1];
      ScanAppend(xs, ys[..|ys| - 1], st, repr);
    }
  }

  /** Once a file is abandoned nothing more happens to it. */
  lemma {:induction false} ScanIdle<P>(ys: seq<Item<P>>, st: ScanState, repr: P -> string)
    requires !st.ok
    ensures Scan(ys, st, repr) == st
    decreases |ys|
  {
    if |ys| > 0 {
      ScanIdle(ys[..|ys| - 1], st, repr);
    }
  }

  /** An exception at `item` abandons the rest of the file, and the rows
      already appended stay. */
  lemma Abandon<P>(done: seq<Item<P>>, item: Item<P>, rest: seq<Item<P>>, st: ScanState, repr: P -> string)
    requires Scan(done, st, repr).ok
    requires Identifier(item).Failure? ||
      (Identifier(item).value !in Scan(done, st, repr).seen && NewRow(item, repr).Failure?)
    ensures Scan(done + [item] + rest, st, repr) == Scan(done, st, repr).(ok := false)
  {
    var before := Scan(done, st, repr);
    assert (done + [item])[..|done|] == done;
    assert Scan(done + [item], st, repr) == before.(ok := false);
    ScanAppend(done + [item], rest, st, repr);
    ScanIdle(rest, before.(ok := false), repr);
  }

  /** The set of identifiers of a run of rows. */
  function Identifiers(rows: seq<CsvRow>): set<string> {
    set i | 0 <= i < |rows| :: RowIdentifier(rows[i])
  }

  /** What scanning guarantees about the rows it adds: the rows before are
      kept, the added rows have pairwise distinct identifiers that were not
      seen before, and the seen set grows by exactly those identifiers. */
  predicate Extends(st0: ScanState, st: ScanState) {
    && |st0.rows| <= |st.rows| && st.rows[..|st0.rows|] == st0.rows
    && (forall i, j :: |st0.rows| <= i < j < |st.rows| ==> RowIdentifier(st.rows[i]) != RowIdentifier(st.rows[j]))
    && (forall i :: |st0.rows| <= i < |st.rows| ==> RowIdentifier(st.rows[i]) !in st0.seen)
    && st.seen == st0.seen + Identifiers(st.rows[|st0.rows|..])
  }

  lemma {:induction false} ScanExtends<P>(xs: seq<Item<P>>, st0: ScanState, repr: P -> string)
    ensures Extends(st0, Scan(xs, st0, repr))
    decreases |xs|
  {
    if |xs| == 0 {
      assert st0.rows[|st0.rows|..] == [];
    } else {
      var mid := Scan(xs[..|xs| - 1], st0, repr);
      var item := xs[|xs| - 1];
      ScanExtends(xs[..|xs| - 1], st0, repr);
      if mid.ok && Identifier(item).Success? && Identifier(item).value !in mid.seen && NewRow(item, repr).Success? {
        ExtendsSnoc(st0, mid, NewRow(item, repr).value, Identifier(item).value);
      }
    }
  }

  /** Appending a row whose identifier has not been seen keeps the extension. */
  lemma ExtendsSnoc(st0: ScanState, mid: ScanState, row: CsvRow, id: string)
    requires Extends(st0, mid) && RowIdentifier(row) == id && id !in mid.seen
    ensures Extends(st0, ScanState(mid.rows + [row], mid.seen + {id}, true))
  {
    var st := ScanState(mid.rows + [row], mid.seen + {id}, true);
    var n := |st0.rows|;
    assert st.rows[..n] == mid.rows[..n];
    assert st.rows[n..] == mid.rows[n..] + [row];
    IdentifiersSnoc(mid.rows[n..], row);
    forall i | n <= i < |mid.rows| ensures RowIdentifier(mid.rows[i]) != id {
      assert mid.rows[n..][i - n] == mid.rows[i];
    }
  }

  lemma IdentifiersSnoc(rows: seq<CsvRow>, row: CsvRow)
    ensures Identifiers(rows + [row]) == Identifiers(rows) + {RowIdentifier(row)}
  {
    var all := rows + [row];
    forall x | x in Identifiers(all) ensures x in Identifiers(rows) + {RowIdentifier(row)} {
      var i :| 0 <= i < |all| && RowIdentifier(all[i]) == x;
      if i < |rows| {
        assert all[i] == rows[i];
      }
    }
    forall x | x in Identifiers(rows) ensures x in Identifiers(all) {
      var i :| 0 <= i < |rows| && RowIdentifier(rows[i]) == x;
      assert all[i] == rows[i];
    }
    assert all[|rows|] == row;
  }

  /** The first occurrence of an identifier wins: once an item has been
      taken, a later item of the same file with the same identifier adds
      nothing, whatever else it carries. */
  lemma FirstWins<P>(pre: seq<Item<P>>, a: Item<P>, mid: seq<Item<P>>, b: Item<P>, st0: ScanState, repr: P -> string)
    requires Scan(pre + [a] + mid, st0, repr).ok
    requires Identifier(a).Success? && Identifier(a) == Identifier(b)
    ensures Scan(pre + [a] + mid + [b], st0, repr) == Scan(pre + [a] + mid, st0, repr)
  {
    var taken := Scan(pre + [a], st0, repr);
    assert (pre + [a])[..|pre|] == pre;
    ScanAppend(pre + [a], mid, st0, repr);
    assert taken.ok by {
      if !taken.ok {
        ScanIdle(mid, taken, repr);
      }
    }
    assert Identifier(a).value in taken.seen;
    ScanExtends(mid, taken, repr);
    var st := Scan(pre + [a] + mid, st0, repr);
    assert (pre + [a] + mid + [b])[..|pre + [a] + mid|] == pre + [a] + mid;
    assert Identifier(b).value in st.seen;
  }

  /** Descriptions are compared on their first 50 characters only: two
      records of one name whose descriptions agree there share an identifier,
      so the later one is dropped. */
  lemma IdentifierTruncates<P>(name: string, d1: string, d2: string, r1: ApiInfo<P>, r2: ApiInfo<P>)
    requires |d1| >= 50 && |d2| >= 50 && d1[..50] == d2[..50]
    requires r1.ApiInfo? && r1.description == Some(d1)
    requires r2.ApiInfo? && r2.description == Some(d2)
    ensures Identifier(Some((name, r1))) == Identifier(Some((name, r2)))
  {
    assert Take(d1, 50) == d1[..50] && Take(d2, 50) == d2[..50];
  }

  /** The examples text splits back into the record's lines when no line
      holds a newline; an absent member gives the empty text. */
  lemma ExamplesRoundTrip<P>(item: Item<P>, repr: P -> string)
    requires Identifier(item).Success? && NewRow(item, repr).Success?
    ensures item.value.1.examples.NoExamples? ==> NewRow(item, repr).value.examples == ""
    ensures item.value.1.parameters.None? ==> NewRow(item, repr).value.parameters == "[]"
    ensures item.value.1.parameters.Some? ==>
      NewRow(item, repr).value.parameters == repr(item.value.1.parameters.value)
    ensures var ex := item.value.1.examples;
      ex.Lines? && |ex.lines| >= 1 && (forall i :: 0 <= i < |ex.lines| ==> !Contains(ex.lines[i], "\n")) ==>
        Split(NewRow(item, repr).value.examples, "\n") == ex.lines
  {
    var ex := item.value.1.examples;
    if ex.Lines? && |ex.lines| >= 1 && (forall i :: 0 <= i < |ex.lines| ==> !Contains(ex.lines[i], "\n")) {
      OneCharUnbordered('\n');
      SplitJoin(ex.lines, "\n");
    }
  }

  // ---------------------------------------------------------------------
  // Facts about the whole run

  /** The rows a contributing file yields when read with nothing seen. */
  function FileRows<P>(f: RawFile<P>, repr: P -> string): seq<CsvRow> {
    if Contributes(f) then Scan(Flatten(f.content.entries), ScanState([], {}, true), repr).rows else []
  }

  /** The rows already emitted do not influence what a scan adds. */
  lemma {:induction false} ScanShift<P>(xs: seq<Item<P>>, rows: seq<CsvRow>, seen: set<string>, repr: P -> string)
    ensures var st := Scan(xs, ScanState(rows, seen, true), repr);
      var st' := Scan(xs, ScanState([], seen, true), repr);
      st.rows == rows + st'.rows && st.seen == st'.seen && st.ok == st'.ok
    decreases |xs|
  {
    if |xs| > 0 {
      ScanShift(xs[..|xs| - 1], rows, seen, repr);
      StepShift(rows, Scan(xs[..|xs| - 1], ScanState([], seen, true), repr), xs[|xs| - 1], repr);
    }
  }

  lemma StepShift<P>(rows: seq<CsvRow>, st: ScanState, item: Item<P>, repr: P -> string)
    ensures var a := Step(ScanState(rows + st.rows, st.seen, st.ok), item, repr);
      var b := Step(st, item, repr);
      a.rows == rows + b.rows && a.seen == b.seen && a.ok == b.ok
  {
    if st.ok && Identifier(item).Success? && Identifier(item).value !in st.seen && NewRow(item, repr).Success? {
      var row := NewRow(item, repr).value;
      assert (rows + st.rows) + [row] == rows + (st.rows + [row]);
    }
  }

  /** `seen` only has keys for files already read. */
  lemma {:induction false} SeenKeys<P>(files: seq<RawFile<P>>, repr: P -> string, name: string)
    requires forall i :: 0 <= i < |files| ==> files[i].name != name
    ensures name !in Processed(files, repr).1
    decreases |files|
  {
    if |files| > 0 {
      SeenKeys(files[..|files| - 1], repr, name);
    }
  }

  /** `seen` is per file: a file whose name was not read before contributes
      exactly the rows it yields on its own, so identical records in
      different files are all kept. */
  lemma FreshFile<P>(files: seq<RawFile<P>>, f: RawFile<P>, repr: P -> string)
    requires forall i :: 0 <= i < |files| ==> files[i].name != f.name
    ensures Processed(files + [f], repr).0 == Processed(files, repr).0 + FileRows(f, repr)
  {
    assert (files + [f])[..|files|] == files;
    SeenKeys(files, repr, f.name);
    if Contributes(f) {
      ScanShift(Flatten(f.content.entries), Processed(files, repr).0, {}, repr);
    }
  }

  /** Only files whose name ends in ".json" matter: dropping the others
      changes nothing. */
  function JsonFiles<P>(files: seq<RawFile<P>>): seq<RawFile<P>> {
    if |files| == 0 then []
    else
      var f := files[|files| - 1];
      JsonFiles(files[..|files| - 1]) + (if EndsWith(f.name, ".json") then [f] else [])
  }

  lemma {:induction false} OnlyJson<P>(files: seq<RawFile<P>>, repr: P -> string)
    ensures Processed(JsonFiles(files), repr) == Processed(files, repr)
    decreases |files|
  {
    if |files| > 0 {
      var f := files[|files| - 1];
      OnlyJson(files[..|files| - 1], repr);
      if EndsWith(f.name, ".json") {
        var js := JsonFiles(files[..|files| - 1]) + [f];
        assert js[..|js| - 1] == JsonFiles(files[..|files| - 1]);
      } else {
        assert JsonFiles(files) == JsonFiles(files[..|files| - 1]);
      }
    }
  }
}
