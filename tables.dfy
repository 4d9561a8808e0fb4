/** Delimited tables as the table library holds them: an ordered list of distinct column labels
    and a sequence of rows, each row mapping every column label to a cell value. Only the
    operations the pipeline uses are modelled: column rename, sort by one column, column
    assignment, column drop and row-wise concatenation. */
module Tables {
  import opened Common

  /** A cell: a number, a text, or the missing value (NaN) that concatenation fills in. */
  datatype Value = Num(n: int) | Text(s: string) | Missing

  type Row = map<string, Value>

  datatype Table = Table(columns: seq<string>, rows: seq<Row>)

  predicate Distinct(cols: seq<string>)
  {
    forall i, j :: 0 <= i < j < |cols| ==> cols[i] != cols[j]
  }

  function ColumnSet(cols: seq<string>): set<string>
  {
    set c | c in cols
  }

  /** Distinct labels, and every row holds exactly the table's columns. */
  ghost predicate WellFormed(t: Table)
  {
    Distinct(t.columns) && forall k :: 0 <= k < |t.rows| ==> t.rows[k].Keys == ColumnSet(t.columns)
  }

  const Empty: Table := Table([], [])

  // ---------------------------------------------------------------- rename

  function RenameKey(row: Row, from: string, to: string): Row
  {
    if from in row then (row - {from})[to := row[from]] else row
  }

  /** `df.rename(columns={from: to})`: relabel the column `from`; every other column and every
      value stays as it was. */
  function RenameColumn(t: Table, from: string, to: string): (r: Table)
    ensures |r.columns| == |t.columns| && |r.rows| == |t.rows|
    ensures forall i :: 0 <= i < |t.columns| ==> r.columns[i] == if t.columns[i] == from then to else t.columns[i]
    ensures forall k :: 0 <= k < |t.rows| ==> r.rows[k] == RenameKey(t.rows[k], from, to)
  {
    Table(RenameLabels(t.columns, from, to), seq(|t.rows|, k requires 0 <= k < |t.rows| => RenameKey(t.rows[k], from, to)))
  }

  /** The labels with `from` replaced by `to`. */
  function RenameLabels(cols: seq<string>, from: string, to: string): (r: seq<string>)
    ensures |r| == |cols|
    ensures forall i :: 0 <= i < |cols| ==> r[i] == if cols[i] == from then to else cols[i]
  {
    if cols == [] then [] else [if cols[0] == from then to else cols[0]] + RenameLabels(cols[1..], from, to)
  }

  /** After the rename, `to` labels the columns `from` and `to` labelled before. */
  lemma {:induction false} RenameLabelsCount(cols: seq<string>, from: string, to: string)
    requires from != to
    ensures multiset(RenameLabels(cols, from, to))[to] == multiset(cols)[from] + multiset(cols)[to]
  {
    if cols != [] {
      assert cols == [cols[0]] + cols[1..];
      RenameLabelsCount(cols[1..], from, to);
    }
  }

  /** Distinct labels occur once each. */
  lemma {:induction false} DistinctCount(cols: seq<string>, c: string)
    requires Distinct(cols)
    ensures multiset(cols)[c] == if c in cols then 1 else 0
  {
    if cols != [] {
      assert cols == [cols[0]] + cols[1..];
      assert Distinct(cols[1..]) by {
        forall i, j | 0 <= i < j < |cols[1..]| ensures cols[1..][i] != cols[1..][j] {
          assert cols[i + 1] != cols[j + 1];
        }
      }
      assert cols[0] !in cols[1..] by {
        forall j | 0 <= j < |cols[1..]| ensures cols[1..][j] != cols[0] {
          assert cols[j + 1] != cols[0];
        }
      }
      DistinctCount(cols[1..], c);
    }
  }

  /** Renaming an existing column to a fresh label keeps the table well formed, moves every
      value of `from` under `to`, and leaves every other column of every row untouched. */
  lemma RenamePreserves(t: Table, from: string, to: string)
    requires WellFormed(t) && from in t.columns && to !in t.columns
    ensures WellFormed(RenameColumn(t, from, to))
    ensures forall k :: 0 <= k < |t.rows| ==>
      var old_, new_ := t.rows[k], RenameColumn(t, from, to).rows[k];
      new_.Keys == old_.Keys - {from} + {to} && new_[to] == old_[from] &&
      forall c :: c in old_ && c != from ==> new_[c] == old_[c]
  {
    RenameWellFormed(t, from, to);
  }

  lemma RenameWellFormed(t: Table, from: string, to: string)
    requires WellFormed(t) && from in t.columns && to !in t.columns
    ensures WellFormed(RenameColumn(t, from, to))
  {
    RenameLabelsDistinct(t.columns, from, to);
    RenameLabelsSet(t.columns, from, to);
  }

  lemma RenameLabelsDistinct(cols: seq<string>, from: string, to: string)
    requires Distinct(cols) && to !in cols
    ensures Distinct(RenameLabels(cols, from, to))
  {
    var r := RenameLabels(cols, from, to);
    forall i, j | 0 <= i < j < |r| ensures r[i] != r[j] {
      assert cols[i] != cols[j];
    }
  }

  lemma RenameLabelsSet(cols: seq<string>, from: string, to: string)
    requires from in cols
    ensures ColumnSet(RenameLabels(cols, from, to)) == ColumnSet(cols) - {from} + {to}
  {
    var r := RenameLabels(cols, from, to);
    forall c | c in ColumnSet(r) ensures c in ColumnSet(cols) - {from} + {to} {
      var i :| 0 <= i < |r| && r[i] == c;
    }
    forall c | c in ColumnSet(cols) - {from} + {to} ensures c in ColumnSet(r) {
      if c == to {
        var i :| 0 <= i < |cols| && cols[i] == from;
        assert r[i] == c;
      } else {
        var i :| 0 <= i < |cols| && cols[i] == c;
        assert r[i] == c;
      }
    }
  }

  // ---------------------------------------------------------------- sort

  /** Ascending order of a sort key: numbers by value, the missing value after every number. */
  predicate KeyLe(a: Value, b: Value)
  {
    match (a, b)
    case (Num(x), Num(y)) => x <= y
    case (_, Missing) => true
    case _ => false
  }

  /** Every row holds a comparable (non-text) value under `key`. */
  predicate Sortable(rows: seq<Row>, key: string)
  {
    forall k :: 0 <= k < |rows| ==> key in rows[k] && !rows[k][key].Text?
  }

  /** The rows are in ascending order of their `key` values. */
  ghost predicate SortedBy(rows: seq<Row>, key: string)
  {
    forall i, j :: 0 <= i < j < |rows| ==> key in rows[i] && key in rows[j] && KeyLe(rows[i][key], rows[j][key])
  }

  function Insert(x: Row, s: seq<Row>, key: string): (r: seq<Row>)
    requires key in x && !x[key].Text? && Sortable(s, key)
    ensures multiset(r) == multiset(s) + multiset{x}
    ensures Sortable(r, key)
  {
    if s == [] then [x]
    else if KeyLe(x[key], s[0][key]) then [x] + s
    else
      assert s == [s[0]] + s[1..];
      var rest := Insert(x, s[1..], key);
      assert forall j :: 0 <= j < |rest| ==> rest[j] in multiset(rest);
      [s[0]] + rest
  }

  /** A bound below `x` and every row of `s` is a bound below every row after inserting. */
  lemma InsertBounded(x: Row, s: seq<Row>, key: string, v: Value)
    requires key in x && !x[key].Text? && Sortable(s, key)
    requires KeyLe(v, x[key]) && forall j :: 0 <= j < |s| ==> KeyLe(v, s[j][key])
    ensures forall j :: 0 <= j < |Insert(x, s, key)| ==> KeyLe(v, Insert(x, s, key)[j][key])
  {
    var r := Insert(x, s, key);
    forall j | 0 <= j < |r| ensures KeyLe(v, r[j][key]) {
      assert r[j] in multiset(r);
      if r[j] != x {
        assert r[j] in multiset(s);
        var m :| 0 <= m < |s| && s[m] == r[j];
      }
    }
  }

  /** Inserting into sorted rows keeps them sorted. */
  lemma {:induction false} InsertSorted(x: Row, s: seq<Row>, key: string)
    requires key in x && !x[key].Text? && Sortable(s, key) && SortedBy(s, key)
    ensures SortedBy(Insert(x, s, key), key)
  {
    if s == [] {
    } else if KeyLe(x[key], s[0][key]) {
      InsertFront(x, s, key);
    } else {
      InsertSorted(x, s[1..], key);
      InsertBehind(x, s, key);
    }
  }

  lemma InsertFront(x: Row, s: seq<Row>, key: string)
    requires key in x && !x[key].Text? && Sortable(s, key) && SortedBy(s, key)
    requires s != [] && KeyLe(x[key], s[0][key])
    ensures SortedBy(Insert(x, s, key), key)
  {
    var r := Insert(x, s, key);
    assert r == [x] + s;
    forall i, j | 0 <= i < j < |r| ensures KeyLe(r[i][key], r[j][key]) {
      if i == 0 && j > 1 {
        assert KeyLe(s[0][key], s[j - 1][key]);
      }
    }
  }

  lemma InsertBehind(x: Row, s: seq<Row>, key: string)
    requires key in x && !x[key].Text? && Sortable(s, key) && SortedBy(s, key)
    requires s != [] && !KeyLe(x[key], s[0][key])
    requires SortedBy(Insert(x, s[1..], key), key)
    ensures SortedBy(Insert(x, s, key), key)
  {
    assert s == [s[0]] + s[1..];
    var rest := Insert(x, s[1..], key);
    assert Insert(x, s, key) == [s[0]] + rest;
    assert KeyLe(s[0][key], x[key]);
    assert forall j :: 0 <= j < |s[1..]| ==> KeyLe(s[0][key], s[1..][j][key]) by {
      forall j | 0 <= j < |s[1..]| ensures KeyLe(s[0][key], s[1..][j][key]) {
        assert s[1..][j] == s[j + 1];
      }
    }
    InsertBounded(x, s[1..], key, s[0][key]);
    ConsSorted(s[0], rest, key);
  }

  /** A sorted sequence stays sorted behind a row that is no greater than any of it. */
  lemma ConsSorted(h: Row, rest: seq<Row>, key: string)
    requires key in h && Sortable(rest, key) && SortedBy(rest, key)
    requires forall j :: 0 <= j < |rest| ==> KeyLe(h[key], rest[j][key])
    ensures SortedBy([h] + rest, key)
  {
    var r := [h] + rest;
    forall i, j | 0 <= i < j < |r| ensures key in r[i] && key in r[j] && KeyLe(r[i][key], r[j][key]) {
      if i == 0 {
        assert r[j] == rest[j - 1];
      } else {
        assert r[i] == rest[i - 1] && r[j] == rest[j - 1];
      }
    }
  }

  /** The rows in ascending order of `key`: a sorted permutation of the input. Ties may come
      out in any order, as with the library's default (unstable) sort. */
  function SortRows(rows: seq<Row>, key: string): (r: seq<Row>)
    requires Sortable(rows, key)
    ensures multiset(r) == multiset(rows) && |r| == |rows|
    ensures Sortable(r, key) && SortedBy(r, key)
  {
    if rows == [] then []
    else
      assert rows == [rows[0]] + rows[1..];
      var rest := SortRows(rows[1..], key);
      InsertSorted(rows[0], rest, key);
      Insert(rows[0], rest, key)
  }

  /** A permutation of rows has as many rows, each one of the originals. */
  lemma PermutedRows(r: seq<Row>, s: seq<Row>)
    requires multiset(r) == multiset(s)
    ensures |r| == |s|
    ensures forall k :: 0 <= k < |r| ==> exists m :: 0 <= m < |s| && r[k] == s[m]
  {
    assert |multiset(r)| == |multiset(s)|;
    forall k | 0 <= k < |r| ensures exists m :: 0 <= m < |s| && r[k] == s[m] {
      assert r[k] in multiset(s);
    }
  }

  /** Rows drawn from a well-formed table form, under its columns, a well-formed table. */
  lemma PermutedWellFormed(t: Table, rows: seq<Row>)
    requires WellFormed(t) && forall k :: 0 <= k < |rows| ==> exists m :: 0 <= m < |t.rows| && rows[k] == t.rows[m]
    ensures WellFormed(Table(t.columns, rows))
  {
  }

  /** `df.sort_values(by=key, ascending=True)`: fails when no column or several columns carry
      the label, or when a value under it cannot be compared. */
  function SortByColumn(t: Table, key: string): (r: Result<Table>)
    ensures r.Success? <==> multiset(t.columns)[key] == 1 && Sortable(t.rows, key)
    ensures r.Success? ==> r.value.columns == t.columns
    ensures r.Success? ==> multiset(r.value.rows) == multiset(t.rows) && SortedBy(r.value.rows, key)
  {
    if multiset(t.columns)[key] == 0 then Failure(ColumnNotFound(key))
    else if multiset(t.columns)[key] > 1 then Failure(AmbiguousColumn(key))
    else if !Sortable(t.rows, key) then Failure(UnsortableColumn(key))
    else Success(Table(t.columns, SortRows(t.rows, key)))
  }

  // ---------------------------------------------------------------- assign and drop

  /** `df[c] = v`: every row gets `v` under `c`; a new label is appended to the columns. */
  function AssignColumn(t: Table, c: string, v: Value): (r: Table)
    ensures |r.rows| == |t.rows|
    ensures forall k :: 0 <= k < |t.rows| ==> r.rows[k] == t.rows[k][c := v]
    ensures ColumnSet(r.columns) == ColumnSet(t.columns) + {c}
    ensures WellFormed(t) ==> WellFormed(r)
  {
    var cols := if c in t.columns then t.columns else t.columns + [c];
    assert ColumnSet(cols) == ColumnSet(t.columns) + {c};
    Table(cols, seq(|t.rows|, k requires 0 <= k < |t.rows| => t.rows[k][c := v]))
  }

  /** `cols` without the labels in `drop`, in their original order. */
  function Without(cols: seq<string>, drop: set<string>): (r: seq<string>)
    ensures forall c :: c in r <==> c in cols && c !in drop
    ensures Distinct(cols) ==> Distinct(r)
  {
    if cols == [] then []
    else if cols[0] in drop then Without(cols[1..], drop)
    else [cols[0]] + Without(cols[1..], drop)
  }

  /** The first label of `labels` that is not a column of `cols`, if any. */
  function FirstAbsent(labels: seq<string>, cols: seq<string>): (r: Option<string>)
    ensures r.None? <==> forall c :: c in labels ==> c in cols
    ensures r.Some? ==> r.value in labels && r.value !in cols
  {
    if labels == [] then None
    else if labels[0] !in cols then Some(labels[0])
    else FirstAbsent(labels[1..], cols)
  }

  /** `df.drop(labels, axis=1)`: removes exactly those columns, and fails with a KeyError
      naming an absent label when one of them is not a column. */
  function DropColumns(t: Table, labels: seq<string>): (r: Result<Table>)
    ensures r.Success? <==> forall c :: c in labels ==> c in t.columns
    ensures r.Failure? ==> r.error.ColumnNotFound? && r.error.column in labels && r.error.column !in t.columns
    ensures r.Success? ==> |r.value.rows| == |t.rows|
    ensures r.Success? ==> forall c :: c in r.value.columns <==> c in t.columns && c !in labels
    ensures r.Success? ==> forall k :: 0 <= k < |t.rows| ==> r.value.rows[k] == t.rows[k] - ColumnSet(labels)
    ensures r.Success? && WellFormed(t) ==> WellFormed(r.value)
  {
    match FirstAbsent(labels, t.columns)
    case Some(c) => Failure(ColumnNotFound(c))
    case None =>
      var drop := ColumnSet(labels);
      var cols := Without(t.columns, drop);
      assert ColumnSet(cols) == ColumnSet(t.columns) - drop;
      Success(Table(cols, seq(|t.rows|, k requires 0 <= k < |t.rows| => t.rows[k] - drop)))
  }

  // ---------------------------------------------------------------- concatenation

  /** A row widened to the columns `cols`, the new cells missing. */
  function Pad(row: Row, cols: set<string>): (r: Row)
    ensures r.Keys == cols
    ensures forall c :: c in cols ==> r[c] == if c in row then row[c] else Missing
  {
    map c | c in cols :: if c in row then row[c] else Missing
  }

  /** `big` holds every cell of `small` unchanged, and the missing value in every other column. */
  ghost predicate Extends(big: Row, small: Row)
  {
    big == Pad(small, small.Keys + big.Keys)
  }

  lemma ExtendsTransitive(big: Row, mid: Row, small: Row)
    requires Extends(big, mid) && Extends(mid, small)
    ensures Extends(big, small)
  {
    assert big == Pad(small, big.Keys);
  }

  /** A row padded to a superset of its columns widens it. */
  lemma PadExtends(row: Row, cols: set<string>)
    requires row.Keys <= cols
    ensures Extends(Pad(row, cols), row)
  {
  }

  /** The columns of `a` followed by the new ones of `b` hold each label once. */
  lemma ConcatColumnsDistinct(ac: seq<string>, bc: seq<string>)
    ensures Distinct(ac) && Distinct(bc) ==> Distinct(ac + Without(bc, ColumnSet(ac)))
  {
    if !(Distinct(ac) && Distinct(bc)) {
      return;
    }
    var extra := Without(bc, ColumnSet(ac));
    var cols := ac + extra;
    forall i, j | 0 <= i < j < |cols| ensures cols[i] != cols[j] {
      if j >= |ac| && i < |ac| {
        assert cols[j] == extra[j - |ac|];
        assert cols[j] in extra;
      } else if i >= |ac| {
        assert cols[i] == extra[i - |ac|] && cols[j] == extra[j - |ac|];
      }
    }
  }

  /** The columns of `pd.concat([a, b])`: those of `a`, then the new ones of `b`. */
  function ConcatColumns(ac: seq<string>, bc: seq<string>): (r: seq<string>)
    ensures ColumnSet(r) == ColumnSet(ac) + ColumnSet(bc)
    ensures Distinct(ac) && Distinct(bc) ==> Distinct(r)
  {
    ConcatColumnsDistinct(ac, bc);
    var r := ac + Without(bc, ColumnSet(ac));
    assert ColumnSet(r) == ColumnSet(ac) + ColumnSet(bc);
    r
  }

  /** Row `k` of the concatenation over the columns `all`: a row of `a`, or of `b` after
      those of `a`, widened. */
  function ConcatRow(a: Table, b: Table, all: set<string>, k: nat): Row
    requires k < |a.rows| + |b.rows|
  {
    if k < |a.rows| then Pad(a.rows[k], all) else Pad(b.rows[k - |a.rows|], all)
  }

  /** `pd.concat([a, b], axis=0)`: the rows of `a` then the rows of `b`, over the union of
      their columns (those of `a` first, then the new ones of `b`), missing cells filled in. */
  function ConcatTables(a: Table, b: Table): (r: Table)
    ensures |r.rows| == |a.rows| + |b.rows|
    ensures ColumnSet(r.columns) == ColumnSet(a.columns) + ColumnSet(b.columns)
    ensures WellFormed(a) && WellFormed(b) ==> WellFormed(r)
  {
    var cols := ConcatColumns(a.columns, b.columns);
    Table(cols, seq(|a.rows| + |b.rows|, k requires 0 <= k < |a.rows| + |b.rows| => ConcatRow(a, b, ColumnSet(cols), k)))
  }

  /** Row `i` of the concatenation is `ConcatRow` over its columns. */
  lemma ConcatRowAt(a: Table, b: Table, i: nat)
    requires i < |a.rows| + |b.rows|
    ensures i < |ConcatTables(a, b).rows|
    ensures ConcatTables(a, b).rows[i] == ConcatRow(a, b, ColumnSet(ConcatTables(a, b).columns), i)
  {
  }

  /** Row `k` of `b` lands, widened, at row `j`, after the rows of `a`. */
  lemma ConcatPlacesRow(a: Table, b: Table, k: nat, j: nat)
    requires WellFormed(a) && WellFormed(b) && k < |b.rows| && j == |a.rows| + k
    ensures j < |ConcatTables(a, b).rows| && Extends(ConcatTables(a, b).rows[j], b.rows[k])
  {
    ConcatRowAt(a, b, j);
    ConcatRowOfB(a, b, ColumnSet(ConcatTables(a, b).columns), k, j);
    PaddedRowExtends(ConcatTables(a, b), j, b.rows[k], ColumnSet(ConcatTables(a, b).columns));
  }

  /** Past the rows of `a`, `ConcatRow` pads a row of `b`. */
  lemma ConcatRowOfB(a: Table, b: Table, all: set<string>, k: nat, j: nat)
    requires k < |b.rows| && j == |a.rows| + k
    ensures ConcatRow(a, b, all, j) == Pad(b.rows[k], all)
  {
  }

  /** A row that is another padded to a superset of its columns widens it. */
  lemma PaddedRowExtends(t: Table, i: nat, row: Row, all: set<string>)
    requires i < |t.rows| && t.rows[i] == Pad(row, all) && row.Keys <= all
    ensures Extends(t.rows[i], row)
  {
    PadExtends(row, all);
  }

  /** Row `k` of `a` stays first, widened, in the concatenation. */
  lemma ConcatKeepsRow(a: Table, b: Table, k: nat)
    requires WellFormed(a) && WellFormed(b) && k < |a.rows|
    ensures k < |ConcatTables(a, b).rows| && Extends(ConcatTables(a, b).rows[k], a.rows[k])
  {
    ConcatRowAt(a, b, k);
    PaddedRowExtends(ConcatTables(a, b), k, a.rows[k], ColumnSet(ConcatTables(a, b).columns));
  }

  /** A row widening row `j` of the concatenation, where row `k` of `b` landed, widens row `k`
      of `b` itself. */
  lemma ConcatExtendsRow(a: Table, b: Table, big: Row, k: nat, j: nat)
    requires WellFormed(a) && WellFormed(b) && k < |b.rows| && j == |a.rows| + k
    requires j < |ConcatTables(a, b).rows| && Extends(big, ConcatTables(a, b).rows[j])
    ensures Extends(big, b.rows[k])
  {
    ConcatPlacesRow(a, b, k, j);
    ExtendsTransitive(big, ConcatTables(a, b).rows[j], b.rows[k]);
  }
}
