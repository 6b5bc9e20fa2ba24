/**
 * Bulk import of the curator command line (`curator/cli.py`): the fail-soft
 * pipeline that parses every line of a file, resolves collections, posts the
 * items and accounts for each line.
 */
module BulkImport {
  import opened Prelude
  import opened Text
  import opened BulkRows

  // -------------------------------------------------------------- the file

  const BULK_MAX_ROWS: nat := 10000

  datatype DataLine = DataLine(line: nat, text: string)

  datatype Row = Row(line: nat, spec: Spec)

  datatype Resolved = Resolved(row: Row, collection: nat)

  datatype Note = Note(line: nat, reason: string)

  /** How a data line is cut into cells, and the type of rows that name none. */
  datatype Format = Format(csv: string -> seq<string>, defaultType: Option<string>)

  /** Blank lines and comments are not data. */
  predicate IsData(raw: string) { Strip(raw) != "" && Strip(raw)[0] != '#' }

  /** The data lines of the file with their line numbers, which start at one. */
  function DataLines(lines: seq<string>): seq<DataLine> {
    if lines == [] then []
    else
      var front, last := DataLines(lines[..|lines| - 1]), lines[|lines| - 1];
      if IsData(last) then front + [DataLine(|lines|, Strip(last))] else front
  }

  predicate Parses(d: DataLine, f: Format) { RowValid(f.csv(d.text), f.defaultType) }

  function RowOf(d: DataLine, f: Format): Row
    requires Parses(d, f)
  {
    Row(d.line, RowSpec(f.csv(d.text), f.defaultType))
  }

  /** The rows of the data lines that parse, in file order. */
  function ValidRows(data: seq<DataLine>, f: Format): seq<Row> {
    if data == [] then []
    else
      var front, last := ValidRows(data[..|data| - 1], f), data[|data| - 1];
      if Parses(last, f) then front + [RowOf(last, f)] else front
  }

  /** The numbers of the data lines that do not. */
  function InvalidLines(data: seq<DataLine>, f: Format): seq<int> {
    if data == [] then []
    else
      var front, last := InvalidLines(data[..|data| - 1], f), data[|data| - 1];
      if Parses(last, f) then front else front + [last.line]
  }

  function RowLines(rows: seq<Row>): seq<int> { seq(|rows|, i requires 0 <= i < |rows| => rows[i].line) }

  function NoteLines(notes: seq<Note>): seq<int> { seq(|notes|, i requires 0 <= i < |notes| => notes[i].line) }

  function ResolvedLines(rs: seq<Resolved>): seq<int> { seq(|rs|, i requires 0 <= i < |rs| => rs[i].row.line) }

  function DataNumbers(ds: seq<DataLine>): seq<int> { seq(|ds|, i requires 0 <= i < |ds| => ds[i].line) }

  /** One more data line goes to the one list or to the other. */
  lemma ParsedNext(data: seq<DataLine>, d: DataLine, f: Format)
    ensures Parses(d, f) ==>
              ValidRows(data + [d], f) == ValidRows(data, f) + [RowOf(d, f)]
              && InvalidLines(data + [d], f) == InvalidLines(data, f)
    ensures !Parses(d, f) ==>
              ValidRows(data + [d], f) == ValidRows(data, f)
              && InvalidLines(data + [d], f) == InvalidLines(data, f) + [d.line]
  {
    SnocParts(data, d);
  }

  lemma NotesNext(notes: seq<Note>, note: Note)
    ensures NoteLines(notes + [note]) == NoteLines(notes) + [note.line]
  {}

  method ParseLine(line: nat, stripped: string, specs: seq<Row>, skipped: seq<Note>, ghost data: seq<DataLine>,
                   f: Format)
    returns (specs': seq<Row>, skipped': seq<Note>)
    requires specs == ValidRows(data, f) && NoteLines(skipped) == InvalidLines(data, f)
    ensures var data' := data + [DataLine(line, stripped)];
            specs' == ValidRows(data', f) && NoteLines(skipped') == InvalidLines(data', f)
    ensures |specs'| + |skipped'| == |specs| + |skipped| + 1
  {
    specs', skipped' := specs, skipped;
    ParsedNext(data, DataLine(line, stripped), f);
    var parsed := ParseBulkRow(f.csv(stripped), f.defaultType);
    if parsed.Ok? {
      specs' := specs + [Row(line, parsed.value)];
    } else {
      var note := Note(line, parsed.message);
      skipped' := skipped + [note];
      NotesNext(skipped, note);
    }
  }

  /** The next line of the file, seen as data or not. */
  lemma DataLinesNext(lines: seq<string>, i: nat)
    requires i < |lines|
    ensures DataLines(lines[..i + 1])
         == if IsData(lines[i]) then DataLines(lines[..i]) + [DataLine(i + 1, Strip(lines[i]))] else DataLines(lines[..i])
  {
    assert lines[..i + 1][..i] == lines[..i];
  }

  lemma {:induction false} DataLinesGrow(lines: seq<string>, k: nat)
    requires k <= |lines|
    ensures |DataLines(lines[..k])| <= |DataLines(lines)|
    decreases |lines| - k
  {
    if k == |lines| {
      assert lines[..k] == lines;
    } else {
      DataLinesNext(lines, k);
      DataLinesGrow(lines, k + 1);
    }
  }

  /** Phase one: parse every data line, or give up at the row cap. */
  method ParseFile(lines: seq<string>, f: Format) returns (r: Result<(seq<Row>, seq<Note>)>)
    ensures r.Err? <==> |DataLines(lines)| > 10000
    ensures r.Ok? ==> r.value.0 == ValidRows(DataLines(lines), f)
    ensures r.Ok? ==> NoteLines(r.value.1) == InvalidLines(DataLines(lines), f)
    ensures r.Ok? ==> |r.value.0| + |r.value.1| == |DataLines(lines)|
  {
    var specs: seq<Row>, skipped: seq<Note> := [], [];
    for i := 0 to |lines|
      invariant specs == ValidRows(DataLines(lines[..i]), f)
      invariant NoteLines(skipped) == InvalidLines(DataLines(lines[..i]), f)
      invariant |specs| + |skipped| == |DataLines(lines[..i])| <= BULK_MAX_ROWS
    {
      var stripped := Strip(lines[i]);
      ghost var data := DataLines(lines[..i]);
      DataLinesNext(lines, i);
      if stripped != "" && stripped[0] != '#' {
        if |specs| + |skipped| >= BULK_MAX_ROWS {
          DataLinesGrow(lines, i + 1);
          return Err("bulk import exceeds the hard cap");
        }
        specs, skipped := ParseLine(i + 1, stripped, specs, skipped, data, f);
      } else {
        assert DataLines(lines[..i + 1]) == data;
      }
    }
    assert lines[..|lines|] == lines;
    r := Ok((specs, skipped));
  }

  /**
   * A printed line with its line ending, whatever the delimiter and whether or
   * not empty trailing cells were left off, is data unless its slug makes it a
   * comment, and what is left of it after stripping parses back.
   */
  lemma PrintedLineIsData(s: Spec, delimiter: char, kept: nat, ending: string, defaultType: Option<string>)
    requires WritableSpec(s, delimiter) && AllSpace(ending)
    requires 3 <= kept <= 6 && forall i | kept <= i < 6 :: Cells(s)[i] == ""
    ensures var line := Join(Cells(s)[..kept], [delimiter]) + ending;
            && (IsData(line) <==> s.slug[0] != '#')
            && var fields := Split(Strip(line), delimiter);
               RowValid(fields, defaultType) && RowSpec(fields, defaultType) == s
  {
    var k := PrintedLineStripped(s, delimiter, kept, ending);
    RowRoundTrip(s, delimiter, k, defaultType);
  }

  /** A line of a file: no data, or a printed specification with its line ending. */
  datatype FileLine = Noise(raw: string) | Printed(spec: Spec, kept: nat, ending: string)

  predicate Importable(l: FileLine, delimiter: char) {
    match l
    case Noise(raw) => Strip(raw) == "" || Strip(raw)[0] == '#'
    case Printed(s, kept, ending) =>
      && WritableSpec(s, delimiter) && s.slug[0] != '#' && AllSpace(ending)
      && 3 <= kept <= 6 && forall i | kept <= i < 6 :: Cells(s)[i] == ""
  }

  function RawLine(l: FileLine, delimiter: char): string
    requires Importable(l, delimiter)
  {
    match l
    case Noise(raw) => raw
    case Printed(s, kept, ending) => Join(Cells(s)[..kept], [delimiter]) + ending
  }

  function RawLines(file: seq<FileLine>, delimiter: char): (r: seq<string>)
    requires forall l | l in file :: Importable(l, delimiter)
    ensures |r| == |file|
  {
    seq(|file|, i requires 0 <= i < |file| => RawLine(file[i], delimiter))
  }

  /** The printed specifications with their line numbers. */
  function PrintedRows(file: seq<FileLine>): seq<Row> {
    if file == [] then []
    else
      var front, last := PrintedRows(file[..|file| - 1]), file[|file| - 1];
      if last.Printed? then front + [Row(|file|, last.spec)] else front
  }

  lemma RawLinesNext(file: seq<FileLine>, l: FileLine, delimiter: char)
    requires (forall x | x in file :: Importable(x, delimiter)) && Importable(l, delimiter)
    ensures RawLines(file + [l], delimiter) == RawLines(file, delimiter) + [RawLine(l, delimiter)]
  {
    assert forall i | 0 <= i < |file| :: (file + [l])[i] == file[i];
  }

  lemma PrintedRowsNext(file: seq<FileLine>, l: FileLine)
    ensures PrintedRows(file + [l])
         == if l.Printed? then PrintedRows(file) + [Row(|file| + 1, l.spec)] else PrintedRows(file)
  {
    SnocParts(file, l);
  }

  /** The printed line at the end of a file becomes its last row. */
  lemma PrintedRowParses(s: Spec, kept: nat, ending: string, delimiter: char, f: Format, line: nat)
    requires Importable(Printed(s, kept, ending), delimiter)
    requires f.csv == ((text: string) => Split(text, delimiter))
    ensures var raw := RawLine(Printed(s, kept, ending), delimiter);
            var d := DataLine(line, Strip(raw));
            IsData(raw) && Parses(d, f) && RowOf(d, f) == Row(line, s)
  {
    PrintedLineIsData(s, delimiter, kept, ending, f.defaultType);
  }

  /** A file parses to exactly the rows printed into it. */
  predicate ParsesTo(lines: seq<string>, f: Format, rows: seq<Row>) {
    ValidRows(DataLines(lines), f) == rows && InvalidLines(DataLines(lines), f) == []
  }

  lemma ParsesToNext(lines: seq<string>, f: Format, rows: seq<Row>, l: FileLine, delimiter: char)
    requires ParsesTo(lines, f, rows) && Importable(l, delimiter)
    requires f.csv == ((text: string) => Split(text, delimiter))
    ensures ParsesTo(lines + [RawLine(l, delimiter)], f,
                     if l.Printed? then rows + [Row(|lines| + 1, l.spec)] else rows)
  {
    var raw := RawLine(l, delimiter);
    SnocParts(lines, raw);
    if l.Printed? {
      PrintedRowParses(l.spec, l.kept, l.ending, delimiter, f, |lines| + 1);
      ParsedNext(DataLines(lines), DataLine(|lines| + 1, Strip(raw)), f);
    }
  }

  /** A file of printed rows, with comments and blank lines anywhere, parses to exactly those rows. */
  lemma {:induction false} FileRoundTrip(file: seq<FileLine>, delimiter: char, f: Format)
    requires forall l | l in file :: Importable(l, delimiter)
    requires f.csv == ((text: string) => Split(text, delimiter))
    ensures ParsesTo(RawLines(file, delimiter), f, PrintedRows(file))
  {
    if file != [] {
      var front, last := file[..|file| - 1], file[|file| - 1];
      assert forall l | l in front :: l in file;
      FileRoundTrip(front, delimiter, f);
      ParsesToNext(RawLines(front, delimiter), f, PrintedRows(front), last, delimiter);
      RawLinesNext(front, last, delimiter);
      PrintedRowsNext(front, last);
      FrontLast(file, front, last);
    }
  }

  // -------------------------------------------------------- the accounting

  ghost predicate Increasing(ns: seq<int>) {
    forall i, j | 0 <= i < j < |ns| :: ns[i] < ns[j]
  }

  ghost predicate AllUpTo(ns: seq<int>, n: int) {
    forall i | 0 <= i < |ns| :: ns[i] <= n
  }

  lemma {:induction false} DataLinesIncrease(lines: seq<string>)
    ensures Increasing(DataNumbers(DataLines(lines))) && AllUpTo(DataNumbers(DataLines(lines)), |lines|)
  {
    if lines != [] {
      var n := |lines|;
      DataLinesIncrease(lines[..n - 1]);
      var numbers := DataNumbers(DataLines(lines[..n - 1]));
      assert DataNumbers(DataLines(lines)) == if IsData(lines[n - 1]) then numbers + [n] else numbers;
      assert forall i | 0 <= i < |numbers| :: numbers[i] <= n - 1;
    }
  }

  /** Numbers handed out in order to one of two lists: each is in order, and together they are all. */
  ghost predicate Dealt(a: seq<int>, b: seq<int>, all: seq<int>) {
    && multiset(a) + multiset(b) == multiset(all)
    && (Increasing(all) ==> Increasing(a) && Increasing(b))
  }

  lemma IncreasingNext(a: seq<int>, all: seq<int>, x: int)
    requires Increasing(all + [x]) && forall y | y in a :: y in all
    ensures Increasing(all) && (Increasing(a) ==> Increasing(a + [x]))
  {
    var more := all + [x];
    assert forall i, j | 0 <= i < j < |all| :: more[i] == all[i] && more[j] == all[j];
    forall i | 0 <= i < |a|
      ensures a[i] < x
    {
      var y := a[i];
      assert y in a && y in all;
      var j :| 0 <= j < |all| && all[j] == a[i];
      assert more[j] < more[|all|];
    }
  }

  lemma DealtFirst(a: seq<int>, b: seq<int>, all: seq<int>, x: int)
    requires Dealt(a, b, all)
    ensures Dealt(a + [x], b, all + [x])
  {
    assert multiset(a + [x]) + multiset(b) == multiset(a) + multiset(b) + multiset{x};
    if Increasing(all + [x]) {
      forall y | y in a
        ensures y in all
      {
        assert y in multiset(all);
      }
      IncreasingNext(a, all, x);
    }
  }

  lemma DealtSecond(a: seq<int>, b: seq<int>, all: seq<int>, x: int)
    requires Dealt(a, b, all)
    ensures Dealt(a, b + [x], all + [x])
  {
    DealtFirst(b, a, all, x);
  }

  lemma RowNumberNext(rows: seq<Row>, row: Row)
    ensures RowLines(rows + [row]) == RowLines(rows) + [row.line]
  {}

  lemma DataNumberNext(data: seq<DataLine>, d: DataLine)
    ensures DataNumbers(data + [d]) == DataNumbers(data) + [d.line]
  {}

  lemma ResolvedNumberNext(rs: seq<Resolved>, r: Resolved)
    ensures ResolvedLines(rs + [r]) == ResolvedLines(rs) + [r.row.line]
  {}

  ghost predicate ParsedOnce(data: seq<DataLine>, f: Format) {
    Dealt(RowLines(ValidRows(data, f)), InvalidLines(data, f), DataNumbers(data))
  }

  lemma ParsedOnceNext(data: seq<DataLine>, d: DataLine, f: Format)
    requires ParsedOnce(data, f)
    ensures ParsedOnce(data + [d], f)
  {
    var rows, invalid := ValidRows(data, f), InvalidLines(data, f);
    ParsedNext(data, d, f);
    DataNumberNext(data, d);
    if Parses(d, f) {
      RowNumberNext(rows, RowOf(d, f));
      DealtFirst(RowLines(rows), invalid, DataNumbers(data), d.line);
    } else {
      DealtSecond(RowLines(rows), invalid, DataNumbers(data), d.line);
    }
  }

  lemma {:induction false} LinesParsedOnce(data: seq<DataLine>, f: Format)
    ensures ParsedOnce(data, f)
  {
    if data != [] {
      var front, last := data[..|data| - 1], data[|data| - 1];
      LinesParsedOnce(front, f);
      ParsedOnceNext(front, last, f);
      FrontLast(data, front, last);
    }
  }

  ghost predicate ResolvedOnce(rows: seq<Row>, l: Listings) {
    Dealt(ResolvedLines(ResolvedRows(rows, l)), UnresolvedLines(rows, l), RowLines(rows))
  }

  lemma ResolvedOnceNext(rows: seq<Row>, row: Row, l: Listings)
    requires ResolvedOnce(rows, l)
    ensures ResolvedOnce(rows + [row], l)
  {
    var resolved, unresolved, id := ResolvedRows(rows, l), UnresolvedLines(rows, l), LastCollection(rows + [row], l);
    ResolvedNext(rows, row, l);
    RowNumberNext(rows, row);
    if id.Some? {
      ResolvedNumberNext(resolved, Resolved(row, id.value));
      DealtFirst(ResolvedLines(resolved), unresolved, RowLines(rows), row.line);
    } else {
      DealtSecond(ResolvedLines(resolved), unresolved, RowLines(rows), row.line);
    }
  }

  lemma {:induction false} RowsResolvedOnce(rows: seq<Row>, l: Listings)
    ensures ResolvedOnce(rows, l)
  {
    if rows != [] {
      var front, last := rows[..|rows| - 1], rows[|rows| - 1];
      RowsResolvedOnce(front, l);
      ResolvedOnceNext(front, last, l);
      FrontLast(rows, front, last);
    }
  }

  // ------------------------------------------------- what the server decides

  datatype Collection = Collection(id: nat, slug: string)

  datatype Payload = Payload(value: string, itemType: string, reference: Option<string>,
                             publicReference: Option<string>, expireDays: Option<nat>)

  function PayloadOf(s: Spec): Payload {
    Payload(s.value, s.itemType, s.reference, s.publicReference, s.expireDays)
  }

  function FindSlug(collections: seq<Collection>, slug: string): (r: Option<nat>)
    ensures r.None? <==> forall c | c in collections :: c.slug != slug
  {
    if collections == [] then None
    else if collections[0].slug == slug then Some(collections[0].id)
    else FindSlug(collections[1..], slug)
  }

  /** The first collection with the slug is the one meant. */
  lemma {:induction false} FindSlugIsFirst(collections: seq<Collection>, slug: string) returns (i: nat)
    requires FindSlug(collections, slug).Some?
    ensures i < |collections| && collections[i].slug == slug && FindSlug(collections, slug) == Some(collections[i].id)
    ensures forall j | 0 <= j < i :: collections[j].slug != slug
  {
    if collections[0].slug == slug {
      i := 0;
    } else {
      var k := FindSlugIsFirst(collections[1..], slug);
      i := k + 1;
    }
  }

  /**
   * The listing a client has kept, if any, how many it has requested, and what
   * the server answers to each request (nothing for an error).
   */
  datatype Listings = Listings(kept: Option<seq<Collection>>, requested: nat, answers: nat -> Option<seq<Collection>>)

  /** The listing in hand after `n` look-ups by slug. */
  function InHand(l: Listings, n: nat): Option<seq<Collection>> {
    if n == 0 then l.kept
    else
      var earlier := InHand(l, n - 1);
      if earlier.Some? then earlier else l.answers(l.requested + n - 1)
  }

  /** How many listings have been requested by then. */
  function Requested(l: Listings, n: nat): (r: nat)
    ensures InHand(l, n).None? ==> r == l.requested + n
  {
    if n == 0 then l.requested
    else Requested(l, n - 1) + (if InHand(l, n - 1).Some? then 0 else 1)
  }

  /** The listing in hand is the one kept from before, or else the first the server gave. */
  lemma {:induction false} InHandIsFirst(l: Listings, n: nat)
    ensures l.kept.Some? ==> InHand(l, n) == l.kept
    ensures l.kept.None? ==>
              (InHand(l, n).None? <==> forall k | l.requested <= k < l.requested + n :: l.answers(k).None?)
    ensures l.kept.None? && InHand(l, n).Some? ==>
              exists k :: l.requested <= k < l.requested + n && l.answers(k) == InHand(l, n)
                && forall j | l.requested <= j < k :: l.answers(j).None?
  {
    if n > 0 {
      InHandIsFirst(l, n - 1);
    }
  }

  /** One more look-up by slug costs a request only while there is no listing. */
  lemma InHandNext(l: Listings, n: nat)
    ensures if InHand(l, n).Some? then InHand(l, n + 1) == InHand(l, n) && Requested(l, n + 1) == Requested(l, n)
            else InHand(l, n + 1) == l.answers(Requested(l, n)) && Requested(l, n + 1) == Requested(l, n) + 1
  {}

  lemma {:induction false} InHandStays(l: Listings, m: nat, n: nat)
    requires m <= n && InHand(l, m).Some?
    ensures InHand(l, n) == InHand(l, m)
  {
    if m < n {
      InHandStays(l, m, n - 1);
    }
  }

  /** The collection a reference stands for: a number as it is, a slug by the listing in hand. */
  function CollectionOf(reference: string, listing: Option<seq<Collection>>): Option<nat> {
    var slug := Strip(reference);
    if IsDigits(slug) then Some(ParseDigits(slug))
    else if listing.Some? then FindSlug(listing.value, slug)
    else None
  }

  /** How many rows name their collection by slug. */
  function SlugCount(rows: seq<Row>): nat {
    if rows == [] then 0
    else
      var last := rows[|rows| - 1];
      SlugCount(rows[..|rows| - 1]) + (if IsDigits(Strip(last.spec.slug)) then 0 else 1)
  }

  /** What the last of these rows resolves to, after the look-ups for the ones before it. */
  function LastCollection(rows: seq<Row>, l: Listings): Option<nat>
    requires rows != []
  {
    CollectionOf(rows[|rows| - 1].spec.slug, InHand(l, SlugCount(rows)))
  }

  function ResolvedRows(rows: seq<Row>, l: Listings): seq<Resolved> {
    if rows == [] then []
    else
      var n, id := |rows| - 1, LastCollection(rows, l);
      if id.Some? then ResolvedRows(rows[..n], l) + [Resolved(rows[n], id.value)] else ResolvedRows(rows[..n], l)
  }

  function UnresolvedLines(rows: seq<Row>, l: Listings): seq<int> {
    if rows == [] then []
    else
      var n := |rows| - 1;
      if LastCollection(rows, l).Some? then UnresolvedLines(rows[..n], l) else UnresolvedLines(rows[..n], l) + [rows[n].line]
  }

  /** One more row goes to the one list or to the other. */
  lemma ResolvedNext(rows: seq<Row>, row: Row, l: Listings)
    ensures match LastCollection(rows + [row], l)
            case Some(id) =>
              && ResolvedRows(rows + [row], l) == ResolvedRows(rows, l) + [Resolved(row, id)]
              && UnresolvedLines(rows + [row], l) == UnresolvedLines(rows, l)
            case None =>
              && ResolvedRows(rows + [row], l) == ResolvedRows(rows, l)
              && UnresolvedLines(rows + [row], l) == UnresolvedLines(rows, l) + [row.line]
    ensures SlugCount(rows + [row]) == SlugCount(rows) + (if IsDigits(Strip(row.spec.slug)) then 0 else 1)
  {
    SnocParts(rows, row);
  }

  /** What the `i`-th row resolves to. */
  function CollectionAt(rows: seq<Row>, l: Listings, i: nat): Option<nat>
    requires i < |rows|
  {
    LastCollection(rows[..i + 1], l)
  }

  lemma CollectionAtPrefix(rows: seq<Row>, l: Listings, n: nat)
    requires n <= |rows|
    ensures forall i: nat | i < n :: CollectionAt(rows[..n], l, i) == CollectionAt(rows, l, i)
  {
    forall i: nat | i < n
      ensures CollectionAt(rows[..n], l, i) == CollectionAt(rows, l, i)
    {
      assert rows[..n][..i + 1] == rows[..i + 1];
    }
  }

  /** Row `i` is resolved to this collection. */
  predicate ResolvedAt(rows: seq<Row>, l: Listings, i: nat, r: Resolved) {
    i < |rows| && rows[i] == r.row && CollectionAt(rows, l, i) == Some(r.collection)
  }

  /** A row is resolved, to this collection, exactly if its look-up gives it. */
  lemma {:induction false} ResolvedExactly(rows: seq<Row>, l: Listings, r: Resolved)
    ensures r in ResolvedRows(rows, l) <==> exists i: nat :: ResolvedAt(rows, l, i, r)
  {
    if rows != [] {
      var n := |rows| - 1;
      ResolvedExactly(rows[..n], l, r);
      CollectionAtPrefix(rows, l, n);
      LastAt(rows, l);
      assert forall i: nat | i < n :: ResolvedAt(rows[..n], l, i, r) <==> ResolvedAt(rows, l, i, r);
      assert r in ResolvedRows(rows, l) <==> r in ResolvedRows(rows[..n], l) || ResolvedAt(rows, l, n, r);
    }
  }

  lemma LastAt(rows: seq<Row>, l: Listings)
    requires rows != []
    ensures CollectionAt(rows, l, |rows| - 1) == LastCollection(rows, l)
  {
    assert rows[..|rows|] == rows;
  }

  predicate UnresolvedAt(rows: seq<Row>, l: Listings, i: nat, line: int) {
    i < |rows| && rows[i].line == line && CollectionAt(rows, l, i) == None
  }

  /** And it is skipped at this point exactly if the look-up fails. */
  lemma {:induction false} UnresolvedExactly(rows: seq<Row>, l: Listings, line: int)
    ensures line in UnresolvedLines(rows, l) <==> exists i: nat :: UnresolvedAt(rows, l, i, line)
  {
    if rows != [] {
      var n := |rows| - 1;
      UnresolvedExactly(rows[..n], l, line);
      CollectionAtPrefix(rows, l, n);
      LastAt(rows, l);
      assert forall i: nat | i < n :: UnresolvedAt(rows[..n], l, i, line) <==> UnresolvedAt(rows, l, i, line);
      assert line in UnresolvedLines(rows, l) <==> line in UnresolvedLines(rows[..n], l) || UnresolvedAt(rows, l, n, line);
    }
  }

  lemma {:induction false} SlugCountGrows(rows: seq<Row>, i: nat)
    requires i <= |rows|
    ensures SlugCount(rows[..i]) <= SlugCount(rows)
    decreases |rows| - i
  {
    if i == |rows| {
      assert rows[..i] == rows;
    } else {
      assert rows[..i + 1][..i] == rows[..i];
      SlugCountGrows(rows, i + 1);
    }
  }

  /**
   * All resolved rows agree with the listing kept in the end; and if the first
   * request, or none, was needed to have one, so do all rows that are skipped.
   */
  lemma ResolvedByOneListing(rows: seq<Row>, l: Listings, i: nat)
    requires i < |rows|
    ensures var last := InHand(l, SlugCount(rows));
            var id := CollectionAt(rows, l, i);
            && (id.Some? ==> id == CollectionOf(rows[i].spec.slug, last))
            && (InHand(l, 1).Some? ==> id == CollectionOf(rows[i].spec.slug, last))
  {
    var upTo := rows[..i + 1];
    SlugCountGrows(rows, i + 1);
    if !IsDigits(Strip(rows[i].spec.slug)) {
      if InHand(l, 1).Some? {
        InHandStays(l, 1, SlugCount(upTo));
      }
      if InHand(l, SlugCount(upTo)).Some? {
        InHandStays(l, SlugCount(upTo), SlugCount(rows));
      }
    }
  }

  function Items(resolved: seq<Resolved>): seq<(nat, Payload)> {
    seq(|resolved|, i requires 0 <= i < |resolved| => (resolved[i].collection, PayloadOf(resolved[i].row.spec)))
  }

  /** Every resolved row is sent, in order, to its collection and field by field. */
  lemma ItemsOutright(resolved: seq<Resolved>)
    ensures |Items(resolved)| == |resolved|
    ensures forall i | 0 <= i < |resolved| ::
              var (collection, payload) := Items(resolved)[i];
              var spec := resolved[i].row.spec;
              && collection == resolved[i].collection
              && payload.value == spec.value && payload.itemType == spec.itemType
              && payload.reference == spec.reference && payload.publicReference == spec.publicReference
              && payload.expireDays == spec.expireDays
  {}

  /** Every printed specification of a file names its collection by number. */
  predicate Numbered(file: seq<FileLine>) {
    forall l | l in file && l.Printed? :: IsDigits(l.spec.slug)
  }

  /** What a file of such specifications asks to be posted. */
  function PrintedItems(file: seq<FileLine>): seq<(nat, Payload)>
    requires Numbered(file)
  {
    if file == [] then []
    else
      var front, last := PrintedItems(file[..|file| - 1]), file[|file| - 1];
      if last.Printed? then
        front + [(ParseDigits(last.spec.slug),
                  Payload(value := last.spec.value, itemType := last.spec.itemType, reference := last.spec.reference,
                          publicReference := last.spec.publicReference, expireDays := last.spec.expireDays))]
      else front
  }

  lemma ItemsNext(resolved: seq<Resolved>, r: Resolved)
    ensures Items(resolved + [r]) == Items(resolved) + [(r.collection, PayloadOf(r.row.spec))]
  {}

  /** Rows with numeric references need no listing: each goes to the collection of that number. */
  lemma {:induction false} NumberedRowsResolve(file: seq<FileLine>, l: Listings)
    requires Numbered(file)
    ensures Items(ResolvedRows(PrintedRows(file), l)) == PrintedItems(file)
    ensures UnresolvedLines(PrintedRows(file), l) == []
  {
    if file != [] {
      var front, last := file[..|file| - 1], file[|file| - 1];
      NumberedRowsResolve(front, l);
      FrontLast(file, front, last);
      PrintedRowsNext(front, last);
      if last.Printed? {
        var row := Row(|file|, last.spec);
        ResolvedNext(PrintedRows(front), row, l);
        DigitsAreTrimmed(last.spec.slug);
        StripTrimmed(last.spec.slug);
        ItemsNext(ResolvedRows(PrintedRows(front), l), Resolved(row, ParseDigits(last.spec.slug)));
      }
    }
  }

  /**
   * From the file to the server: a file of printed specifications with numeric
   * references, among comments and blank lines, is posted as exactly those
   * specifications, in order, with nothing skipped.
   */
  lemma FileIsPosted(file: seq<FileLine>, delimiter: char, f: Format, l: Listings)
    requires (forall x | x in file :: Importable(x, delimiter)) && Numbered(file)
    requires f.csv == ((text: string) => Split(text, delimiter))
    ensures var data := DataLines(RawLines(file, delimiter));
            && InvalidLines(data, f) + UnresolvedLines(ValidRows(data, f), l) == []
            && Items(ResolvedRows(ValidRows(data, f), l)) == PrintedItems(file)
  {
    FileRoundTrip(file, delimiter, f);
    NumberedRowsResolve(file, l);
  }

  /** The lines of the items the server rejects, when the first of them is the `first`-th it is sent. */
  function RejectedLines(resolved: seq<Resolved>, accepts: nat -> bool, first: nat): seq<int> {
    if resolved == [] then []
    else
      var n := |resolved| - 1;
      var front := RejectedLines(resolved[..n], accepts, first);
      if accepts(first + n) then front else front + [resolved[n].row.line]
  }

  /** The items it accepts, by position. */
  function AcceptedPosts(accepts: nat -> bool, first: nat, n: nat): set<nat> {
    set k: nat | first <= k < first + n && accepts(k)
  }

  lemma AcceptedNext(accepts: nat -> bool, first: nat, n: nat)
    ensures |AcceptedPosts(accepts, first, n + 1)|
         == |AcceptedPosts(accepts, first, n)| + (if accepts(first + n) then 1 else 0)
  {
    var k := first + n;
    assert AcceptedPosts(accepts, first, n + 1)
        == AcceptedPosts(accepts, first, n) + (if accepts(k) then {k} else {});
  }

  lemma RejectedNext(resolved: seq<Resolved>, r: Resolved, accepts: nat -> bool, first: nat)
    ensures RejectedLines(resolved + [r], accepts, first)
         == if accepts(first + |resolved|) then RejectedLines(resolved, accepts, first)
            else RejectedLines(resolved, accepts, first) + [r.row.line]
  {
    SnocParts(resolved, r);
  }

  predicate RejectedAt(resolved: seq<Resolved>, accepts: nat -> bool, first: nat, k: nat, line: int) {
    k < |resolved| && resolved[k].row.line == line && !accepts(first + k)
  }

  /** Exactly the lines of rejected items are listed. */
  lemma {:induction false} RejectedExactly(resolved: seq<Resolved>, accepts: nat -> bool, first: nat, line: int)
    ensures line in RejectedLines(resolved, accepts, first) <==>
              exists k: nat :: RejectedAt(resolved, accepts, first, k, line)
  {
    if resolved != [] {
      var n := |resolved| - 1;
      var front := resolved[..n];
      RejectedExactly(front, accepts, first, line);
      assert forall k: nat | k < n ::
          RejectedAt(front, accepts, first, k, line) <==> RejectedAt(resolved, accepts, first, k, line);
      assert line in RejectedLines(resolved, accepts, first) <==>
             line in RejectedLines(front, accepts, first) || RejectedAt(resolved, accepts, first, n, line);
    }
  }

  /** All other items are accepted. */
  lemma {:induction false} RejectedOrAccepted(resolved: seq<Resolved>, accepts: nat -> bool, first: nat)
    ensures |RejectedLines(resolved, accepts, first)| + |AcceptedPosts(accepts, first, |resolved|)| == |resolved|
  {
    if resolved == [] {
      assert AcceptedPosts(accepts, first, 0) == {};
    } else {
      var n := |resolved| - 1;
      RejectedOrAccepted(resolved[..n], accepts, first);
      AcceptedNext(accepts, first, n);
    }
  }

  // ---------------------------------------------------------------- client

  /**
   * The HTTP client. The server's answers are parameters: `listings(k)` is what
   * the k-th listing request gives (nothing for an error), `accepts(k)` whether
   * the k-th item is taken. `posted` records every item sent, in order.
   */
  class CuratorClient {
    const listings: nat -> Option<seq<Collection>>
    const accepts: nat -> bool
    var listed: nat
    var collections: Option<seq<Collection>>
    var posted: seq<(nat, Payload)>

    constructor (listings: nat -> Option<seq<Collection>>, accepts: nat -> bool)
      ensures this.listings == listings && this.accepts == accepts
      ensures listed == 0 && collections == None && posted == []
    {
      this.listings, this.accepts := listings, accepts;
      listed, collections, posted := 0, None, [];
    }

    function Known(): Listings
      reads this
    {
      Listings(collections, listed, listings)
    }

    /** Numeric references need no request; the listing is fetched until it succeeds once. */
    method ResolveCollectionId(reference: string) returns (r: Result<nat>)
      modifies this`listed, this`collections
      ensures IsDigits(Strip(reference)) || old(collections).Some? ==>
                listed == old(listed) && collections == old(collections)
      ensures !IsDigits(Strip(reference)) && old(collections).None? ==>
                listed == old(listed) + 1 && collections == listings(old(listed))
      ensures match CollectionOf(reference, collections)
              case Some(id) => r == Ok(id)
              case None => r.Err?
    {
      var slug := Strip(reference);
      if IsDigits(slug) {
        return Ok(ParseDigits(slug));
      }
      if collections.None? {
        collections := listings(listed);
        listed := listed + 1;
        if collections.None? {
          return Err("cannot reach Curator");
        }
      }
      match FindSlug(collections.value, slug) {
        case Some(id) => r := Ok(id);
        case None => r := Err("collection slug not found");
      }
    }

    method AddItem(collection: nat, payload: Payload) returns (ok: bool)
      modifies this`posted
      ensures posted == old(posted) + [(collection, payload)] && ok == accepts(|old(posted)|)
    {
      ok := accepts(|posted|);
      posted := posted + [(collection, payload)];
    }

    /** One row gets its collection, or joins the skipped ones. */
    method ResolveRow(row: Row, resolved: seq<Resolved>, skipped: seq<Note>,
                      ghost unparsed: seq<int>, ghost done: seq<Row>, ghost l: Listings)
      returns (resolved': seq<Resolved>, skipped': seq<Note>)
      requires l.answers == listings && collections == InHand(l, SlugCount(done)) && listed == Requested(l, SlugCount(done))
      requires resolved == ResolvedRows(done, l) && NoteLines(skipped) == unparsed + UnresolvedLines(done, l)
      modifies this`listed, this`collections
      ensures var done' := done + [row];
              && resolved' == ResolvedRows(done', l)
              && NoteLines(skipped') == unparsed + UnresolvedLines(done', l)
              && collections == InHand(l, SlugCount(done')) && listed == Requested(l, SlugCount(done'))
    {
      resolved', skipped' := resolved, skipped;
      ResolvedNext(done, row, l);
      InHandNext(l, SlugCount(done));
      var id := ResolveCollectionId(row.spec.slug);
      if id.Ok? {
        resolved' := resolved + [Resolved(row, id.value)];
      } else {
        var note := Note(row.line, id.message);
        NotesNext(skipped, note);
        skipped' := skipped + [note];
      }
    }

    /** Phase two: every row in turn. */
    method ResolveRows(specs: seq<Row>, skipped: seq<Note>) returns (resolved: seq<Resolved>, skipped': seq<Note>)
      modifies this`listed, this`collections
      ensures resolved == ResolvedRows(specs, old(Known()))
      ensures NoteLines(skipped') == NoteLines(skipped) + UnresolvedLines(specs, old(Known()))
      ensures collections == InHand(old(Known()), SlugCount(specs))
      ensures listed == Requested(old(Known()), SlugCount(specs))
    {
      ghost var l := Known();
      resolved, skipped' := [], skipped;
      for i := 0 to |specs|
        invariant resolved == ResolvedRows(specs[..i], l)
        invariant NoteLines(skipped') == NoteLines(skipped) + UnresolvedLines(specs[..i], l)
        invariant collections == InHand(l, SlugCount(specs[..i]))
        invariant listed == Requested(l, SlugCount(specs[..i]))
      {
        assert specs[..i + 1] == specs[..i] + [specs[i]];
        resolved, skipped' := ResolveRow(specs[i], resolved, skipped', NoteLines(skipped), specs[..i], l);
      }
      assert specs[..|specs|] == specs;
    }

    /** Phase three: post every resolved row once, in order. */
    method PostRows(resolved: seq<Resolved>) returns (added: nat, failed: seq<Note>)
      modifies this`posted
      ensures posted == old(posted) + Items(resolved)
      ensures NoteLines(failed) == RejectedLines(resolved, accepts, |old(posted)|)
      ensures added == |AcceptedPosts(accepts, |old(posted)|, |resolved|)|
    {
      ghost var first := |posted|;
      added, failed := 0, [];
      for i := 0 to |resolved|
        invariant posted == old(posted) + Items(resolved[..i])
        invariant NoteLines(failed) == RejectedLines(resolved[..i], accepts, first)
        invariant added == |AcceptedPosts(accepts, first, i)|
      {
        var row := resolved[i];
        assert resolved[..i + 1] == resolved[..i] + [row];
        assert Items(resolved[..i + 1]) == Items(resolved[..i]) + [(row.collection, PayloadOf(row.row.spec))];
        RejectedNext(resolved[..i], row, accepts, first);
        AcceptedNext(accepts, first, i);
        var ok := AddItem(row.collection, PayloadOf(row.row.spec));
        if ok {
          added := added + 1;
        } else {
          var note := Note(row.row.line, "rejected");
          NotesNext(failed, note);
          failed := failed + [note];
        }
      }
      assert resolved[..|resolved|] == resolved;
    }

    method BulkImport(lines: seq<string>, f: Format, dryRun: bool) returns (r: Result<Summary>)
      modifies this
      ensures r.Err? <==> (f.defaultType.Some? && f.defaultType.value !in {"blocklist", "allowlist", "suspected"})
                           || |DataLines(lines)| > 10000
      ensures r.Err? ==> posted == old(posted) && Known() == old(Known())
      ensures r.Ok? ==>
                var resolved := ResolvedRows(ValidRows(DataLines(lines), f), old(Known()));
                && posted == old(posted) + (if dryRun then [] else Items(resolved))
                && Reported(r.value, lines, f, old(Known()), accepts, |old(posted)|, dryRun)
    {
      if f.defaultType.Some? && f.defaultType.value !in ITEM_TYPES {
        return Err("invalid --default-type");
      }
      var parsed := ParseFile(lines, f);
      if parsed.Err? {
        return Err(parsed.message);
      }
      var (specs, unparsed) := parsed.value;
      var rowsTotal := |specs| + |unparsed|;
      var resolved, skipped := ResolveRows(specs, unparsed);
      var added, failed := 0, [];
      if !dryRun {
        added, failed := PostRows(resolved);
      }
      var exit := if failed == [] && skipped == [] then 0 else 1;
      r := Ok(Summary(rowsTotal, |resolved|, added, failed, skipped, exit));
    }
  }

  datatype Summary = Summary(rowsTotal: nat, valid: nat, added: nat, failed: seq<Note>, skipped: seq<Note>, exit: nat)

  /** What a run reports: the lines it skipped and failed, what it counts, and its exit code. */
  ghost predicate Reported(s: Summary, lines: seq<string>, f: Format, l: Listings, accepts: nat -> bool, first: nat,
                           dryRun: bool)
  {
    var data := DataLines(lines);
    var rows := ValidRows(data, f);
    var resolved := ResolvedRows(rows, l);
    && NoteLines(s.skipped) == InvalidLines(data, f) + UnresolvedLines(rows, l)
    && NoteLines(s.failed) == (if dryRun then [] else RejectedLines(resolved, accepts, first))
    && s.rowsTotal == |data| && s.valid == |resolved|
    && s.added == (if dryRun then 0 else |AcceptedPosts(accepts, first, |resolved|)|)
    && s.exit == (if s.failed == [] && s.skipped == [] then 0 else 1)
  }

  /** The counts of a report agree with each other and with the file. */
  lemma ReportAddsUp(s: Summary, lines: seq<string>, f: Format, l: Listings, accepts: nat -> bool, first: nat,
                     dryRun: bool)
    requires Reported(s, lines, f, l, accepts, first, dryRun)
    ensures s.rowsTotal == s.valid + |s.skipped|
    ensures !dryRun ==> s.valid == s.added + |s.failed|
    ensures dryRun ==> s.added == 0 && s.failed == []
  {
    var data := DataLines(lines);
    var rows := ValidRows(data, f);
    LinesParsedOnce(data, f);
    RowsResolvedOnce(rows, l);
    RejectedOrAccepted(ResolvedRows(rows, l), accepts, first);
    DealtCounts(RowLines(rows), InvalidLines(data, f), DataNumbers(data));
    DealtCounts(ResolvedLines(ResolvedRows(rows, l)), UnresolvedLines(rows, l), RowLines(rows));
    assert |NoteLines(s.skipped)| == |s.skipped| && |NoteLines(s.failed)| == |s.failed|;
  }

  lemma DealtCounts(a: seq<int>, b: seq<int>, all: seq<int>)
    requires Dealt(a, b, all)
    ensures |a| + |b| == |all|
  {
    assert |multiset(a) + multiset(b)| == |multiset(all)|;
  }

  /** Every data line ends in exactly one of resolved or skipped, and resolved rows are in file order. */
  lemma EachLineOnce(lines: seq<string>, f: Format, l: Listings, n: int)
    ensures var data := DataLines(lines);
            var rows := ValidRows(data, f);
            var skipped := InvalidLines(data, f) + UnresolvedLines(rows, l);
            var resolved := ResolvedLines(ResolvedRows(rows, l));
            && (n in DataNumbers(data) <==> n in resolved || n in skipped)
            && !(n in resolved && n in skipped)
            && multiset(skipped)[n] <= 1 && Increasing(resolved)
  {
    var data := DataLines(lines);
    var rows := ValidRows(data, f);
    var invalid, unresolved := InvalidLines(data, f), UnresolvedLines(rows, l);
    var all, resolved := DataNumbers(data), ResolvedLines(ResolvedRows(rows, l));
    LinesParsedOnce(data, f);
    RowsResolvedOnce(rows, l);
    DataLinesIncrease(lines);
    IncreasingOnce(all, n);
    assert multiset(all)[n] == multiset(resolved)[n] + multiset(unresolved)[n] + multiset(invalid)[n];
    assert multiset(invalid + unresolved)[n] == multiset(invalid)[n] + multiset(unresolved)[n];
    assert n in all <==> n in multiset(all);
    assert n in resolved <==> n in multiset(resolved);
    assert n in invalid + unresolved <==> n in multiset(invalid + unresolved);
  }

  lemma {:induction false} IncreasingOnce(ns: seq<int>, n: int)
    requires Increasing(ns)
    ensures multiset(ns)[n] <= 1
  {
    if ns != [] {
      var last := ns[|ns| - 1];
      var front := ns[..|ns| - 1];
      assert ns == front + [last];
      IncreasingOnce(front, n);
      assert last !in front;
      assert last !in multiset(front);
    }
  }
}
