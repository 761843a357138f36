/**
 * The bulk member upload sheet (utils/excelExporter.js,
 * `parseBulkMembersExcel`) over the first worksheet as rows of cell texts.
 * Row 1 holds the headers, the remaining rows the members. A cell beyond the
 * end of its row reads as empty. Reading the workbook file itself is left out.
 */
module BulkUpload {
  import opened Wrappers
  import opened Text

  /** The most data rows one upload may carry. */
  const MaxBulkRows: nat := 500

  type Row = seq<string>

  /** One member read from a data row; every field is trimmed. */
  datatype BulkMember = BulkMember(name: string, email: string, contact: string, subgroup: string)

  datatype BulkResult = BulkResult(members: seq<BulkMember>, errors: seq<string>)

  /** The columns the header row names, as 0-based cell positions. */
  datatype Columns = Columns(name: Option<nat>, email: Option<nat>, phone: Option<nat>, subgroup: Option<nat>)

  const TooFewRows := "Excel must have a header row and at least one data row"
  const NoNameColumn := "Excel must have a \"Name\" column in the first row"

  function TooManyRows(dataRows: nat): string
  {
    "Maximum 500 rows allowed. File has " + NatToString(dataRows) + " data rows."
  }

  /** The text of a cell: trimmed, and empty when the row is shorter. */
  function Cell(row: Row, col: nat): (t: string)
    ensures col < |row| ==> t == Trim(row[col])
    ensures col >= |row| ==> t == []
  {
    if col < |row| then Trim(row[col]) else []
  }

  /** The position of the last element satisfying `p`. */
  function LastWhere<T>(s: seq<T>, p: T -> bool): (r: Option<nat>)
    ensures r.Some? ==> r.value < |s| && p(s[r.value]) && forall c :: r.value < c < |s| ==> !p(s[c])
    ensures r.None? <==> forall c :: 0 <= c < |s| ==> !p(s[c])
  {
    if s == [] then None
    else if p(s[|s| - 1]) then Some(|s| - 1)
    else
      var r := LastWhere(s[..|s| - 1], p);
      assert forall c :: 0 <= c < |s| - 1 ==> s[..|s| - 1][c] == s[c];
      r
  }

  /** Two sequences whose elements agree pointwise on the tests have the same last match. */
  lemma {:induction false} LastWhereAgrees<T>(s1: seq<T>, p: T -> bool, s2: seq<T>, q: T -> bool)
    requires |s1| == |s2|
    requires forall c :: 0 <= c < |s1| ==> p(s1[c]) == q(s2[c])
    ensures LastWhere(s1, p) == LastWhere(s2, q)
  {
    if s1 != [] {
      var n := |s1| - 1;
      LastWhereAgrees(s1[..n], p, s2[..n], q);
    }
  }

  /** What a header cell names: its text trimmed and lower-cased. */
  function Heading(cell: string): string { Lower(Trim(cell)) }

  /** The column of a heading: the last header cell naming it, since a later match overwrites an earlier one. */
  function Column(header: Row, heading: string): (r: Option<nat>)
    ensures r.Some? ==> r.value < |header| && Heading(header[r.value]) == heading
    ensures r.Some? ==> forall c :: r.value < c < |header| ==> Heading(header[c]) != heading
    ensures r.None? <==> forall c :: 0 <= c < |header| ==> Heading(header[c]) != heading
  {
    LastWhere(header, (cell: string) => Heading(cell) == heading)
  }

  function ColumnsOf(header: Row): (cols: Columns)
    ensures cols == Columns(Column(header, "name"), Column(header, "email"), Column(header, "phone"), Column(header, "subgroup"))
  {
    Columns(Column(header, "name"), Column(header, "email"), Column(header, "phone"), Column(header, "subgroup"))
  }

  /** An optional column's text, or `''` when the sheet lacks the column. */
  function Optional(row: Row, col: Option<nat>): string
  {
    if col.Some? then Cell(row, col.value) else []
  }

  /** The member a data row describes. */
  function Entry(row: Row, cols: Columns): BulkMember
    requires cols.name.Some?
  {
    BulkMember(Cell(row, cols.name.value), Optional(row, cols.email), Optional(row, cols.phone), Optional(row, cols.subgroup))
  }

  /** A data row with a blank name is skipped. */
  predicate Listed(row: Row, cols: Columns)
    requires cols.name.Some?
  {
    Cell(row, cols.name.value) != []
  }

  function KeepRow(cols: Columns): Row -> bool
    requires cols.name.Some?
  {
    (row: Row) => Listed(row, cols)
  }

  /** The positions of the elements `keep` admits: each admitted position once, in increasing order. */
  function Positions<A>(s: seq<A>, keep: A -> bool): (ps: seq<nat>)
    ensures |ps| <= |s|
    ensures forall j :: 0 <= j < |ps| ==> ps[j] < |s| && keep(s[ps[j]])
    ensures forall i :: 0 <= i < |s| && keep(s[i]) ==> i in ps
    ensures forall j, k :: 0 <= j < k < |ps| ==> ps[j] < ps[k]
  {
    if s == [] then []
    else
      var init := s[..|s| - 1];
      assert forall i :: 0 <= i < |init| ==> init[i] == s[i];
      Positions(init, keep) + if keep(s[|s| - 1]) then [|s| - 1] else []
  }

  /**
   * The images under `f` of the elements that `keep` admits: one image per
   * admitted element, in the elements' order.
   */
  function FilterMap<A, B(!new)>(s: seq<A>, keep: A -> bool, f: A -> B): (r: seq<B>)
    ensures |r| == |Positions(s, keep)|
    ensures forall j :: 0 <= j < |r| ==> r[j] == f(s[Positions(s, keep)[j]])
    ensures forall y :: y in r <==> exists i :: 0 <= i < |s| && keep(s[i]) && y == f(s[i])
  {
    if s == [] then []
    else
      var init := s[..|s| - 1];
      var x := s[|s| - 1];
      assert forall i :: 0 <= i < |init| ==> init[i] == s[i];
      var fi := FilterMap(init, keep, f);
      var pi := Positions(init, keep);
      var ps := Positions(s, keep);
      var r := fi + if keep(x) then [f(x)] else [];
      assert ps == pi + if keep(x) then [|s| - 1] else [];
      forall j | 0 <= j < |r| ensures r[j] == f(s[ps[j]]) {
        if j < |fi| {
          assert r[j] == f(init[pi[j]]) && ps[j] == pi[j];
        }
      }
      forall y | y in r ensures exists i :: 0 <= i < |s| && keep(s[i]) && y == f(s[i]) {
        var j :| 0 <= j < |r| && r[j] == y;
        assert keep(s[ps[j]]);
      }
      forall i | 0 <= i < |s| && keep(s[i]) ensures f(s[i]) in r {
        var j :| 0 <= j < |ps| && ps[j] == i;
        assert r[j] == f(s[i]);
      }
      r
  }

  /**
   * The members of the data rows, in row order: exactly the rows with a
   * non-blank name, each read as `Entry`; names come out trimmed.
   */
  function ReadRows(rows: seq<Row>, cols: Columns): (members: seq<BulkMember>)
    requires cols.name.Some?
    ensures |members| == |Positions(rows, KeepRow(cols))| <= |rows|
    ensures forall j :: 0 <= j < |members| ==> members[j] == Entry(rows[Positions(rows, KeepRow(cols))[j]], cols)
    ensures forall m :: m in members <==> exists i :: 0 <= i < |rows| && Listed(rows[i], cols) && m == Entry(rows[i], cols)
    ensures forall m :: m in members ==> m.name != [] && Trim(m.name) == m.name
  {
    var keep := KeepRow(cols);
    var entry := (row: Row) => Entry(row, cols);
    var named := (m: BulkMember) => m.name != [] && Trim(m.name) == m.name;
    forall i | 0 <= i < |rows| && keep(rows[i]) ensures named(entry(rows[i])) {
      TrimIdempotent(Cell(rows[i], cols.name.value));
    }
    FilterMapAll(rows, keep, entry, named);
    FilterMap(rows, keep, entry)
  }

  /** Every image `FilterMap` keeps has a property that the images of all admitted elements have. */
  lemma FilterMapAll<A, B(!new)>(s: seq<A>, keep: A -> bool, f: A -> B, p: B -> bool)
    requires forall i :: 0 <= i < |s| && keep(s[i]) ==> p(f(s[i]))
    ensures forall y :: y in FilterMap(s, keep, f) ==> p(y)
  {
  }

  /**
   * `parseBulkMembersExcel`: the sheet's own errors come one at a time and
   * carry no members, in the handler's order (too few rows, no Name column,
   * too many data rows); otherwise there is no error and the members are
   * exactly the data rows with a name.
   */
  function ParseBulkMembers(sheet: Option<seq<Row>>): (r: BulkResult)
    ensures sheet.None? || |sheet.value| < 2 ==> r == BulkResult([], [TooFewRows])
    ensures sheet.Some? && |sheet.value| >= 2 && Column(sheet.value[0], "name").None? ==> r == BulkResult([], [NoNameColumn])
    ensures sheet.Some? && |sheet.value| >= 2 && Column(sheet.value[0], "name").Some? && |sheet.value| - 1 > MaxBulkRows
            ==> r == BulkResult([], [TooManyRows(|sheet.value| - 1)])
    ensures r.errors == [] <==> sheet.Some? && 2 <= |sheet.value| <= MaxBulkRows + 1 && Column(sheet.value[0], "name").Some?
    ensures r.errors == [] ==> |r.members| <= |sheet.value| - 1
    ensures r.errors == [] ==>
              var cols := ColumnsOf(sheet.value[0]);
              var ps := Positions(sheet.value[1..], KeepRow(cols));
              |r.members| == |ps| && forall j :: 0 <= j < |ps| ==> r.members[j] == Entry(sheet.value[1 + ps[j]], cols)
    ensures r.errors == [] ==>
              var cols := ColumnsOf(sheet.value[0]);
              forall m :: m in r.members <==>
                exists i :: 1 <= i < |sheet.value| && Listed(sheet.value[i], cols) && m == Entry(sheet.value[i], cols)
  {
    if sheet.None? || |sheet.value| < 2 then BulkResult([], [TooFewRows])
    else
      var rows := sheet.value;
      var cols := ColumnsOf(rows[0]);
      if cols.name.None? then BulkResult([], [NoNameColumn])
      else if |rows| - 1 > MaxBulkRows then BulkResult([], [TooManyRows(|rows| - 1)])
      else
        DataRows(rows, cols);
        BulkResult(ReadRows(rows[1..], cols), [])
  }

  /** `FilterMap` of a sequence without its first element, with positions in the whole sequence. */
  lemma FilterMapTail<A, B(!new)>(s: seq<A>, keep: A -> bool, f: A -> B)
    requires |s| >= 1
    ensures forall y :: y in FilterMap(s[1..], keep, f) <==> exists i :: 1 <= i < |s| && keep(s[i]) && y == f(s[i])
  {
    var t := s[1..];
    forall y ensures y in FilterMap(t, keep, f) <==> exists i :: 1 <= i < |s| && keep(s[i]) && y == f(s[i])
    {
      if y in FilterMap(t, keep, f) {
        var j :| 0 <= j < |t| && keep(t[j]) && y == f(t[j]);
        assert t[j] == s[j + 1];
      }
      if exists i :: 1 <= i < |s| && keep(s[i]) && y == f(s[i]) {
        var i :| 1 <= i < |s| && keep(s[i]) && y == f(s[i]);
        assert t[i - 1] == s[i];
      }
    }
  }

  /** The members of the rows after the header, read with positions in the whole sheet. */
  lemma DataRows(rows: seq<Row>, cols: Columns)
    requires |rows| >= 1 && cols.name.Some?
    ensures forall m :: m in ReadRows(rows[1..], cols) <==>
              exists i :: 1 <= i < |rows| && Listed(rows[i], cols) && m == Entry(rows[i], cols)
  {
    FilterMapTail(rows, KeepRow(cols), (row: Row) => Entry(row, cols));
  }

  /**
   * Header matching ignores case and surrounding white space: a header row
   * that differs only there finds the same column.
   */
  lemma ColumnIgnoresCase(h1: Row, h2: Row, heading: string)
    requires |h1| == |h2|
    requires forall c :: 0 <= c < |h1| ==> Heading(h1[c]) == Heading(h2[c])
    ensures Column(h1, heading) == Column(h2, heading)
  {
    LastWhereAgrees(h1, (cell: string) => Heading(cell) == heading, h2, (cell: string) => Heading(cell) == heading);
  }
}
