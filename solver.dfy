/**
 * The solver's intermediate results (pql/eval/solver.cpp): a row maps declarations to entries,
 * and a table holds rows that all have the table's headers as their columns. Rows are values
 * that are copied and extended; a table's rows are filtered in place.
 *
 * merge and mergeColumn start the new rows from a copy of the receiver's rows, so the new
 * table fails its own header check as soon as it has a new header and the receiver has a
 * row; each is modelled as written (MergeRowsAsWritten, ColumnRowsAsWritten) beside the cross
 * product it evidently means (CrossMerge, ColumnRows), which the table methods use. As the
 * solver's unit tests expect, the corrected methods treat the default-constructed table as
 * one row with no columns (Seeded), so that merging into it gives the other table back.
 */
module Solver {
  import opened Wrappers
  import opened PqlAst
  import opened EvalTable

  /** IntRow */
  datatype IntRow = IntRow(columns: map<Declaration, Entry>)
  {
    function Headers(): set<Declaration> { columns.Keys }

    predicate Contains(decl: Declaration) { decl in columns }

    /** IntRow::getVal */
    function GetVal(decl: Declaration): (r: Result<Entry>)
      ensures r.Ok? <==> decl in columns
      ensures r.Ok? ==> r.value == columns[decl]
    {
      if decl in columns then Ok(columns[decl]) else Err("IntRow does not contain decl")
    }

    /** IntRow::addColumn: a copy with one more column; an existing column fails. */
    function AddColumn(decl: Declaration, entry: Entry): (r: Result<IntRow>)
      ensures r.Ok? <==> decl !in columns
      ensures r.Ok? ==> r.value.Headers() == Headers() + {decl}
      ensures r.Ok? ==> r.value.GetVal(decl) == Ok(entry)
      ensures r.Ok? ==> forall d :: d in columns ==> r.value.GetVal(d) == GetVal(d)
    {
      if decl in columns then Err("decl already exists in IntRow") else Ok(IntRow(columns[decl := entry]))
    }

    /** IntRow::isAllowed: the row's pair for the join's declarations is an allowed pair; a
     *  missing declaration fails. */
    function IsAllowed(join: Join): (r: Result<bool>)
      ensures r.Ok? <==> join.declA in columns && join.declB in columns
      ensures r.Ok? ==> (r.value <==> (columns[join.declA], columns[join.declB]) in join.allowed)
    {
      if !(join.declA in columns && join.declB in columns) then Err("decl is not in IntRow")
      else Ok((columns[join.declA], columns[join.declB]) in join.allowed)
    }

    /** IntRow::canMerge: every declaration both rows have maps to the same entry. */
    predicate CanMerge(other: IntRow)
    {
      forall d :: d in columns && d in other.columns ==> columns[d] == other.columns[d]
    }

    /** IntRow::mergeRow: this row's columns plus the other row's columns it lacks. */
    function MergeRow(other: IntRow): (r: Result<IntRow>)
      ensures r.Ok? <==> CanMerge(other)
      ensures r.Ok? ==> r.value.Headers() == Headers() + other.Headers()
      ensures r.Ok? ==> forall d :: d in columns ==> r.value.GetVal(d) == GetVal(d)
      ensures r.Ok? ==> forall d :: d in other.columns ==> r.value.GetVal(d) == other.GetVal(d)
    {
      if !CanMerge(other) then Err("Cannot merge as there are conflicting entries for the same decl")
      else Ok(IntRow(map d | d in columns.Keys + other.columns.Keys :: if d in columns then columns[d] else other.columns[d]))
    }
  }

  /** Disjoint rows always merge. */
  lemma DisjointRowsMerge(a: IntRow, b: IntRow)
    requires a.Headers() * b.Headers() == {}
    ensures a.CanMerge(b) && a.MergeRow(b).Ok?
  {
    assert forall d :: d in a.columns && d in b.columns ==> d in a.Headers() * b.Headers();
  }

  /** Merging is symmetric: the same rows merge either way round, to the same row. */
  lemma MergeRowSymmetric(a: IntRow, b: IntRow)
    ensures a.CanMerge(b) <==> b.CanMerge(a)
    ensures a.CanMerge(b) ==> a.MergeRow(b) == b.MergeRow(a)
  {
    if a.CanMerge(b) {
      var ab := a.MergeRow(b).value;
      var ba := b.MergeRow(a).value;
      assert ab.columns == ba.columns;
    }
  }

  /** Every row has exactly the given headers as its columns. */
  predicate WellShaped(rows: seq<IntRow>, headers: set<Declaration>)
  {
    forall i :: 0 <= i < |rows| ==> rows[i].Headers() == headers
  }

  /** The merged rows of row x with each row of b it can merge with, in b's order. */
  function RowWith(x: IntRow, b: seq<IntRow>): seq<IntRow>
  {
    if b == [] then []
    else
      var last := b[|b| - 1];
      RowWith(x, b[..|b| - 1]) + (if x.CanMerge(last) then [x.MergeRow(last).value] else [])
  }

  /** The cross product of two row lists: for each row of a in order, its merges with b. */
  function CrossMerge(a: seq<IntRow>, b: seq<IntRow>): seq<IntRow>
  {
    if a == [] then [] else CrossMerge(a[..|a| - 1], b) + RowWith(a[|a| - 1], b)
  }

  /** The rows a table stands for when it is merged into: the default-constructed table, with
   *  no rows and no headers, stands for the single row with no columns, so that it is the
   *  identity of merge and the seed of mergeColumn. */
  function Seeded(rows: seq<IntRow>, headers: set<Declaration>): seq<IntRow>
  {
    if rows == [] && headers == {} then [IntRow(map[])] else rows
  }

  /** The row with no columns merges with every row, to that row. */
  lemma {:induction false} RowWithNoColumns(b: seq<IntRow>)
    ensures RowWith(IntRow(map[]), b) == b
  {
    if b != [] {
      var b0 := b[..|b| - 1];
      var last := b[|b| - 1];
      RowWithNoColumns(b0);
      assert IntRow(map[]).MergeRow(last).value.columns == last.columns;
      assert b == b0 + [last];
    }
  }

  /** The seeded default table is the identity of the cross product. */
  lemma CrossMergeNoColumns(b: seq<IntRow>)
    ensures CrossMerge(Seeded([], {}), b) == b
  {
    assert Seeded([], {})[..0] == [];
    RowWithNoColumns(b);
  }

  /** The rows merge as written builds: the receiver's own rows, then the cross product. */
  function MergeRowsAsWritten(a: seq<IntRow>, b: seq<IntRow>): seq<IntRow>
  {
    a + CrossMerge(a, b)
  }

  /** r is the merge of x with y. */
  predicate MergeOf(r: IntRow, x: IntRow, y: IntRow)
  {
    x.CanMerge(y) && r == x.MergeRow(y).value
  }

  /** r is the merge of x with some compatible row of b. */
  ghost predicate FromRow(r: IntRow, x: IntRow, b: seq<IntRow>)
  {
    exists j :: 0 <= j < |b| && MergeOf(r, x, b[j])
  }

  /** r is the merge of some row of a with some compatible row of b. */
  ghost predicate FromPair(r: IntRow, a: seq<IntRow>, b: seq<IntRow>)
  {
    exists i :: 0 <= i < |a| && FromRow(r, a[i], b)
  }

  lemma FromPairSplit(r: IntRow, a: seq<IntRow>, b: seq<IntRow>)
    requires a != []
    ensures FromPair(r, a, b) <==> FromPair(r, a[..|a| - 1], b) || FromRow(r, a[|a| - 1], b)
  {
    var a0 := a[..|a| - 1];
    if FromPair(r, a, b) {
      var i :| 0 <= i < |a| && FromRow(r, a[i], b);
      if i < |a0| {
        assert a0[i] == a[i];
      }
    }
    if FromPair(r, a0, b) {
      var i :| 0 <= i < |a0| && FromRow(r, a0[i], b);
      assert a[i] == a0[i];
    }
  }

  /** A row of the cross product is the merge of a row of a with a compatible row of b, and
   *  every such merge is one. */
  lemma {:induction false} CrossMergeMembers(a: seq<IntRow>, b: seq<IntRow>, r: IntRow)
    ensures r in CrossMerge(a, b) <==> FromPair(r, a, b)
  {
    if a != [] {
      CrossMergeMembers(a[..|a| - 1], b, r);
      RowWithMembers(a[|a| - 1], b, r);
      FromPairSplit(r, a, b);
    }
  }

  lemma {:induction false} RowWithMembers(x: IntRow, b: seq<IntRow>, r: IntRow)
    ensures r in RowWith(x, b) <==> FromRow(r, x, b)
  {
    if b != [] {
      var b0 := b[..|b| - 1];
      RowWithMembers(x, b0, r);
      if FromRow(r, x, b) {
        var j :| 0 <= j < |b| && MergeOf(r, x, b[j]);
        if j < |b0| {
          assert b0[j] == b[j];
        }
      }
      if FromRow(r, x, b0) {
        var j :| 0 <= j < |b0| && MergeOf(r, x, b0[j]);
        assert b[j] == b0[j];
      }
    }
  }

  /** The cross product of two well-shaped row lists is well-shaped for the union of their
   *  headers, so the corrected merge never fails its header check. */
  lemma CrossMergeWellShaped(a: seq<IntRow>, ha: set<Declaration>, b: seq<IntRow>, hb: set<Declaration>)
    requires WellShaped(a, ha) && WellShaped(b, hb)
    ensures WellShaped(CrossMerge(a, b), ha + hb)
  {
    var c := CrossMerge(a, b);
    forall k | 0 <= k < |c|
      ensures c[k].Headers() == ha + hb
    {
      CrossMergeMembers(a, b, c[k]);
      var i :| 0 <= i < |a| && FromRow(c[k], a[i], b);
      var j :| 0 <= j < |b| && MergeOf(c[k], a[i], b[j]);
    }
  }

  /** As written, merge fails whenever the receiver has a row and the other table brings a
   *  header the receiver lacks: that row keeps its old columns under the wider headers. */
  lemma MergeAsWrittenFails(a: seq<IntRow>, ha: set<Declaration>, hb: set<Declaration>, b: seq<IntRow>)
    requires WellShaped(a, ha) && |a| > 0 && !(hb <= ha)
    ensures !WellShaped(MergeRowsAsWritten(a, b), ha + hb)
  {
    assert MergeRowsAsWritten(a, b)[0] == a[0];
  }

  /** As written, when the other table brings no new header, merge passes its header check but
   *  keeps the receiver's rows: if no row pair is compatible the join is empty, yet every row
   *  of the receiver survives. */
  lemma MergeAsWrittenKeepsUnmatched(a: seq<IntRow>, ha: set<Declaration>, hb: set<Declaration>, b: seq<IntRow>)
    requires WellShaped(a, ha) && hb <= ha
    requires forall i, j :: 0 <= i < |a| && 0 <= j < |b| ==> !a[i].CanMerge(b[j])
    ensures CrossMerge(a, b) == []
    ensures MergeRowsAsWritten(a, b) == a && WellShaped(MergeRowsAsWritten(a, b), ha + hb)
  {
    var c := CrossMerge(a, b);
    if c != [] {
      CrossMergeMembers(a, b, c[0]);
      assert false;
    }
    assert ha + hb == ha;
  }

  /** The rows mergeColumn adds as written, after a copy of the receiver's rows. */
  function ColumnRowsAsWritten(rows: seq<IntRow>, added: seq<IntRow>): seq<IntRow>
  {
    rows + added
  }

  /** One row extended with every entry of the domain. */
  ghost function RowColumn(row: IntRow, decl: Declaration, domain: Domain): set<IntRow>
  {
    set e | e in domain && row.AddColumn(decl, e).Ok? :: row.AddColumn(decl, e).value
  }

  /** Every row extended with every entry of the domain. */
  ghost function ColumnRows(rows: seq<IntRow>, decl: Declaration, domain: Domain): set<IntRow>
  {
    set i, e | 0 <= i < |rows| && e in domain && rows[i].AddColumn(decl, e).Ok? :: rows[i].AddColumn(decl, e).value
  }

  /** As written, mergeColumn on a table with a row and a new declaration fails its header
   *  check, whatever rows it adds. */
  lemma MergeColumnAsWrittenFails(rows: seq<IntRow>, headers: set<Declaration>, decl: Declaration, added: seq<IntRow>)
    requires WellShaped(rows, headers) && |rows| > 0 && decl !in headers
    ensures !WellShaped(ColumnRowsAsWritten(rows, added), headers + {decl})
  {
    assert ColumnRowsAsWritten(rows, added)[0] == rows[0];
  }

  /** The rows filterRows keeps: those whose pair is allowed, in order. */
  function KeepAllowed(rows: seq<IntRow>, join: Join): seq<IntRow>
  {
    if rows == [] then []
    else
      var last := rows[|rows| - 1];
      KeepAllowed(rows[..|rows| - 1], join) + (if last.IsAllowed(join) == Ok(true) then [last] else [])
  }

  /** The kept rows are exactly the allowed rows of the table. */
  lemma {:induction false} KeepAllowedMembers(rows: seq<IntRow>, join: Join, r: IntRow)
    ensures r in KeepAllowed(rows, join) <==> r in rows && r.IsAllowed(join) == Ok(true)
  {
    if rows != [] {
      var r0 := rows[..|rows| - 1];
      KeepAllowedMembers(r0, join, r);
      assert rows == r0 + [rows[|rows| - 1]];
    }
  }

  /** Filtering keeps no more rows than there were. */
  lemma {:induction false} KeepAllowedShrinks(rows: seq<IntRow>, join: Join)
    ensures |KeepAllowed(rows, join)| <= |rows|
  {
    if rows != [] {
      KeepAllowedShrinks(rows[..|rows| - 1], join);
    }
  }

  /** IntTable(rows, headers): the check that every row has the headers as its columns. */
  method MakeIntTable(rows: seq<IntRow>, headers: set<Declaration>) returns (r: Result<IntTable>)
    ensures r.Ok? <==> WellShaped(rows, headers)
    ensures r.Ok? ==> fresh(r.value) && r.value.Valid() && r.value.rows == rows && r.value.headers == headers
  {
    var i := 0;
    while i < |rows|
      invariant 0 <= i <= |rows|
      invariant WellShaped(rows[..i], headers)
    {
      if rows[i].Headers() != headers {
        return Err("Initialised with mismatched rows and headers");
      }
      assert rows[..i + 1] == rows[..i] + [rows[i]];
      i := i + 1;
    }
    assert rows[..i] == rows;
    var t := new IntTable.FromRows(rows, headers);
    r := Ok(t);
  }

  /** IntTable */
  class IntTable {
    var rows: seq<IntRow>
    var headers: set<Declaration>

    /** Every row has the table's headers as its columns, as the constructor checks. */
    ghost predicate Valid()
      reads this
    {
      WellShaped(rows, headers)
    }

    /** IntTable(): no rows and no headers. */
    constructor Empty()
      ensures rows == [] && headers == {} && Valid()
    {
      rows := [];
      headers := {};
    }

    constructor FromRows(rows: seq<IntRow>, headers: set<Declaration>)
      requires WellShaped(rows, headers)
      ensures this.rows == rows && this.headers == headers && Valid()
    {
      this.rows := rows;
      this.headers := headers;
    }

    predicate Contains(decl: Declaration)
      reads this
    {
      decl in headers
    }

    /** IntTable::merge, with the receiver's rows left out of the result: one merged row per
     *  compatible pair, and the union of the headers; the default-constructed table is the
     *  identity. */
    method Merge(other: IntTable) returns (r: IntTable)
      requires Valid() && other.Valid()
      ensures fresh(r) && r.Valid()
      ensures r.rows == CrossMerge(Seeded(rows, headers), other.rows) && r.headers == headers + other.headers
      ensures rows == [] && headers == {} ==> r.rows == other.rows && r.headers == other.headers
    {
      var base := Seeded(rows, headers);
      var newRows: seq<IntRow> := [];
      var i := 0;
      while i < |base|
        invariant 0 <= i <= |base|
        invariant newRows == CrossMerge(base[..i], other.rows)
      {
        var j := 0;
        var mine := base[i];
        ghost var before := newRows;
        while j < |other.rows|
          invariant 0 <= j <= |other.rows|
          invariant newRows == before + RowWith(mine, other.rows[..j])
        {
          var theirs := other.rows[j];
          if mine.CanMerge(theirs) {
            newRows := newRows + [mine.MergeRow(theirs).value];
          }
          assert other.rows[..j + 1][..j] == other.rows[..j];
          j := j + 1;
        }
        assert other.rows[..j] == other.rows;
        assert base[..i + 1][..i] == base[..i];
        i := i + 1;
      }
      assert base[..i] == base;
      if rows == [] && headers == {} {
        CrossMergeNoColumns(other.rows);
      }
      CrossMergeWellShaped(base, headers, other.rows, other.headers);
      r := new IntTable.FromRows(newRows, headers + other.headers);
    }

    /** IntTable::mergeColumn, with the receiver's rows left out of the result: every row
     *  extended with every entry of the domain, under the headers plus decl; the
     *  default-constructed table gives one row per entry. A row that already has decl fails,
     *  unless the domain is empty. */
    method MergeColumn(decl: Declaration, domain: Domain) returns (r: Result<IntTable>)
      requires Valid()
      ensures r.Ok? <==> decl !in headers || rows == [] || domain == {}
      ensures r.Ok? ==> fresh(r.value) && r.value.Valid() && r.value.headers == headers + {decl}
      ensures r.Ok? && decl !in headers ==> (set x | x in r.value.rows) == ColumnRows(Seeded(rows, headers), decl, domain)
      ensures r.Ok? && decl !in headers ==> |r.value.rows| == |Seeded(rows, headers)| * |domain|
      ensures rows == [] && headers == {} ==> r.Ok? && |r.value.rows| == |domain|
    {
      if decl in headers && rows != [] && domain != {} {
        var e :| e in domain;
        assert rows[0].AddColumn(decl, e).Err?;
        return Err("decl already exists in IntRow");
      }
      var base := Seeded(rows, headers);
      var newRows: seq<IntRow> := [];
      var i := 0;
      while i < |base|
        invariant 0 <= i <= |base|
        invariant (set x | x in newRows) == ColumnRows(base[..i], decl, domain)
        invariant |newRows| == i * |domain|
        invariant WellShaped(newRows, headers + {decl})
      {
        var added := ExtendRow(base[i], headers, decl, domain);
        newRows := newRows + added;
        ColumnRowsStep(base, i, decl, domain);
        assert (i + 1) * |domain| == i * |domain| + |domain|;
        i := i + 1;
      }
      assert base[..i] == base;
      var t := new IntTable.FromRows(newRows, headers + {decl});
      r := Ok(t);
    }

    /** IntTable::filterRows: when both declarations of the join are headers, the rows whose pair
     *  is not allowed are removed in place and the others keep their order; otherwise nothing
     *  changes. */
    method FilterRows(join: Join)
      requires Valid()
      modifies this
      ensures Valid() && headers == old(headers)
      ensures join.declA in headers && join.declB in headers ==> rows == KeepAllowed(old(rows), join)
      ensures !(join.declA in headers && join.declB in headers) ==> rows == old(rows)
    {
      if !(join.declA in headers && join.declB in headers) {
        return;
      }
      ghost var original := rows;
      var i := 0;
      ghost var k := 0;
      while i < |rows|
        invariant headers == old(headers)
        invariant 0 <= k <= |original| && 0 <= i <= |rows|
        invariant rows[..i] == KeepAllowed(original[..k], join)
        invariant rows[i..] == original[k..]
        invariant WellShaped(rows, headers)
        decreases |rows| - i
      {
        assert rows[i] == original[k];
        var a := rows[i].columns[join.declA];
        var b := rows[i].columns[join.declB];
        assert original[..k + 1][..k] == original[..k];
        if (a, b) in join.allowed {
          i := i + 1;
        } else {
          rows := rows[..i] + rows[i + 1..];
        }
        k := k + 1;
      }
      assert original[..k] == original;
    }
  }

  /** The inner loop of mergeColumn: one row extended with each entry of the domain. */
  method ExtendRow(row: IntRow, headers: set<Declaration>, decl: Declaration, domain: Domain)
    returns (added: seq<IntRow>)
    requires row.Headers() == headers && (decl !in headers || domain == {})
    ensures (set x | x in added) == RowColumn(row, decl, domain)
    ensures |added| == |domain|
    ensures WellShaped(added, headers + {decl})
  {
    added := [];
    var rest := domain;
    assert domain - rest == {};
    while rest != {}
      invariant rest <= domain
      invariant (set x | x in added) == RowColumn(row, decl, domain - rest)
      invariant |added| == |domain - rest|
      invariant WellShaped(added, headers + {decl})
      decreases |rest|
    {
      var e :| e in rest;
      ghost var done := domain - rest;
      added := added + [row.AddColumn(decl, e).value];
      rest := rest - {e};
      assert domain - rest == done + {e};
      assert RowColumn(row, decl, done + {e}) == RowColumn(row, decl, done) + {row.AddColumn(decl, e).value};
    }
    assert domain - rest == domain;
  }

  lemma ColumnRowsStep(rows: seq<IntRow>, i: nat, decl: Declaration, domain: Domain)
    requires i < |rows|
    ensures ColumnRows(rows[..i + 1], decl, domain) == ColumnRows(rows[..i], decl, domain) + RowColumn(rows[i], decl, domain)
  {
    var p := rows[..i + 1];
    forall x | x in ColumnRows(p, decl, domain)
      ensures x in ColumnRows(rows[..i], decl, domain) + RowColumn(rows[i], decl, domain)
    {
      var k, e :| 0 <= k < |p| && e in domain && p[k].AddColumn(decl, e).Ok? && x == p[k].AddColumn(decl, e).value;
      if k < i {
        assert rows[..i][k] == p[k];
      }
    }
    forall x | x in ColumnRows(rows[..i], decl, domain) + RowColumn(rows[i], decl, domain)
      ensures x in ColumnRows(p, decl, domain)
    {
      if x in ColumnRows(rows[..i], decl, domain) {
        var k, e :| 0 <= k < i && e in domain && rows[..i][k].AddColumn(decl, e).Ok? && x == rows[..i][k].AddColumn(decl, e).value;
        assert p[k] == rows[..i][k];
      } else {
        var e :| e in domain && rows[i].AddColumn(decl, e).Ok? && x == rows[i].AddColumn(decl, e).value;
        assert p[i] == rows[i];
      }
    }
  }
}
