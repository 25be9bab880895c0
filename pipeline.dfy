/**
 * `processar_arquivos` (app.py:22-95) without the spreadsheet reading: the
 * two tables go in, the annotated System-1 table, the counts, the three
 * identifier sets, the anomaly list and the customer column's name come out.
 */
module Pipeline {
  import opened Wrappers
  import opened Cells
  import opened Columns
  import opened Reconcile
  import opened Classify

  /** One spreadsheet row: one cell per column, in column order. */
  type Row = seq<Cell>

  /** A spreadsheet as the loader delivers it. */
  datatype Table = Table(columns: seq<string>, rows: seq<Row>)

  /** Distinct labels and one cell per column in every row. */
  predicate WellFormed(t: Table) {
    DistinctLabels(t.columns) && forall i :: 0 <= i < |t.rows| ==> |t.rows[i]| == |t.columns|
  }

  /** The label of the status column the engine writes. */
  const StatusColumn := "Status_Comparacao"

  /** The tuple `processar_arquivos` returns (app.py:94-95). */
  datatype Output = Output(
    table: Table,
    matchedCount: nat,
    inconsistentCount: nat,
    matched: set<string>,
    onlyFirst: set<string>,
    onlySecond: set<string>,
    theBest: seq<string>,
    customerColumn: string)

  /** Where `df1['Status_Comparacao'] = ...` writes: over an existing column of that label, otherwise a new last column. */
  function StatusSlot(cols: seq<string>): nat {
    if StatusColumn in cols then IndexOf(cols, StatusColumn) else |cols|
  }

  /** The labels of the returned table. */
  function OutColumns(cols: seq<string>): seq<string> {
    if StatusColumn in cols then cols else cols + [StatusColumn]
  }

  /** Every row has a cell at position `col`. */
  predicate HasColumn(rows: seq<Row>, col: nat) {
    forall i :: 0 <= i < |rows| ==> col < |rows[i]|
  }

  /** The cells of column `col`, top to bottom. */
  function Column(rows: seq<Row>, col: nat): seq<Cell>
    requires HasColumn(rows, col)
  {
    seq(|rows|, i requires 0 <= i < |rows| => rows[i][col])
  }

  /** The text of column `col`, top to bottom. */
  function ColumnText(rows: seq<Row>, col: nat): seq<string>
    requires HasColumn(rows, col)
  {
    seq(|rows|, i requires 0 <= i < |rows| => AsStr(rows[i][col]))
  }

  /** `df[c] = df[c].apply(f)`: column `col` of every row replaced by its image under `f`. */
  function MapColumn(rows: seq<Row>, col: nat, f: Cell -> Cell): seq<Row>
    requires HasColumn(rows, col)
  {
    seq(|rows|, i requires 0 <= i < |rows| => rows[i][col := f(rows[i][col])])
  }

  /** Mapping a column keeps the number of rows and the length of each. */
  lemma MapColumnShape(rows: seq<Row>, col: nat, f: Cell -> Cell)
    requires HasColumn(rows, col)
    ensures |MapColumn(rows, col, f)| == |rows|
    ensures forall i :: 0 <= i < |rows| ==> |MapColumn(rows, col, f)[i]| == |rows[i]|
  {
  }

  /** Reading the identifier column after cleaning it in place gives the cleaned identifiers. */
  lemma ColumnTextAfterClean(rows: seq<Row>, col: nat)
    requires HasColumn(rows, col)
    ensures HasColumn(MapColumn(rows, col, CleanCell), col)
    ensures ColumnText(MapColumn(rows, col, CleanCell), col) == Cleaned(Column(rows, col))
  {
    var m := MapColumn(rows, col, CleanCell);
    forall i | 0 <= i < |rows| ensures ColumnText(m, col)[i] == Cleaned(Column(rows, col))[i] {
      assert m[i][col] == CleanCell(rows[i][col]);
      assert Column(rows, col)[i] == rows[i][col];
    }
  }

  /** The in-place column update of app.py:60 and app.py:85. */
  method ApplyToColumn(a: array<Row>, col: nat, f: Cell -> Cell)
    requires HasColumn(a[..], col)
    modifies a
    ensures a[..] == MapColumn(old(a[..]), col, f)
  {
    var i := 0;
    while i < a.Length
      invariant 0 <= i <= a.Length
      invariant forall k :: 0 <= k < i ==> a[k] == old(a[k])[col := f(old(a[k])[col])]
      invariant forall k :: i <= k < a.Length ==> a[k] == old(a[k])
    {
      a[i] := a[i][col := f(a[i][col])];
      i := i + 1;
    }
  }

  /** A row with `v` written at `slot`: over the cell there, or as a new last cell. */
  function Place(row: Row, slot: nat, v: Cell): Row
    requires slot <= |row|
  {
    if slot < |row| then row[slot := v] else row + [v]
  }

  /** The status cell of a row whose identifier column `id` is already cleaned. */
  function StatusCell(row: Row, id: nat, c: Comparison): Cell
    requires id < |row|
  {
    Str(Label(StatusOf(AsStr(row[id]), c)))
  }

  /** Every row has room for the status at `slot`. */
  predicate HasSlot(rows: seq<Row>, slot: nat) {
    forall i :: 0 <= i < |rows| ==> slot <= |rows[i]|
  }

  /** Every row with its status written at `slot`. */
  function WithStatus(rows: seq<Row>, id: nat, slot: nat, c: Comparison): seq<Row>
    requires HasColumn(rows, id) && HasSlot(rows, slot)
  {
    seq(|rows|, i requires 0 <= i < |rows| => Place(rows[i], slot, StatusCell(rows[i], id, c)))
  }

  /** Writing the status keeps the number of rows; a row grows by one cell exactly when the status is appended. */
  lemma WithStatusShape(rows: seq<Row>, id: nat, slot: nat, c: Comparison)
    requires HasColumn(rows, id) && HasSlot(rows, slot)
    ensures |WithStatus(rows, id, slot, c)| == |rows|
    ensures forall i :: 0 <= i < |rows| ==>
              |WithStatus(rows, id, slot, c)[i]| == if slot < |rows[i]| then |rows[i]| else |rows[i]| + 1
  {
  }

  /** The status column assignment of app.py:80-82. */
  method WriteStatus(a: array<Row>, id: nat, slot: nat, c: Comparison)
    requires HasColumn(a[..], id) && HasSlot(a[..], slot)
    modifies a
    ensures a[..] == WithStatus(old(a[..]), id, slot, c)
  {
    var i := 0;
    while i < a.Length
      invariant 0 <= i <= a.Length
      invariant forall k :: 0 <= k < i ==> a[k] == Place(old(a[k]), slot, StatusCell(old(a[k]), id, c))
      invariant forall k :: i <= k < a.Length ==> a[k] == old(a[k])
    {
      a[i] := Place(a[i], slot, StatusCell(a[i], id, c));
      i := i + 1;
    }
  }

  /** The row filter of app.py:87-88: the customer value mentions the marker and the identifier is not present. */
  predicate IsAnomaly(row: Row, id: nat, cust: nat)
    requires id < |row| && cust < |row|
  {
    MentionsMarker(AsStr(row[cust])) && !IsPresent(row[id])
  }

  /** The positions holding `true`, in increasing order. */
  function Positions(m: seq<bool>): (r: seq<nat>)
    ensures forall k :: 0 <= k < |r| ==> r[k] < |m| && m[r[k]]
    ensures forall i :: 0 <= i < |m| && m[i] ==> i in r
    ensures forall k, l :: 0 <= k < l < |r| ==> r[k] < r[l]
  {
    if m == [] then []
    else
      var n := |m| - 1;
      var p := Positions(m[..n]);
      if m[n] then p + [n] else p
  }

  /** Which rows pass the filter of app.py:87-88. */
  function Mask(rows: seq<Row>, id: nat, cust: nat): seq<bool>
    requires HasColumn(rows, id) && HasColumn(rows, cust)
  {
    seq(|rows|, i requires 0 <= i < |rows| => IsAnomaly(rows[i], id, cust))
  }

  /** The positions of the anomalous rows, in increasing order: exactly the rows passing the filter. */
  function AnomalyRows(rows: seq<Row>, id: nat, cust: nat): (r: seq<nat>)
    requires HasColumn(rows, id) && HasColumn(rows, cust)
    ensures forall k :: 0 <= k < |r| ==> r[k] < |rows| && IsAnomaly(rows[r[k]], id, cust)
    ensures forall i :: 0 <= i < |rows| && IsAnomaly(rows[i], id, cust) ==> i in r
    ensures forall k, l :: 0 <= k < l < |r| ==> r[k] < r[l]
  {
    var m := Mask(rows, id, cust);
    assert forall i :: 0 <= i < |rows| ==> m[i] == IsAnomaly(rows[i], id, cust);
    Positions(m)
  }

  /**
   * The customer values of the anomalous rows, in row order, duplicates
   * kept: exactly the values of rows passing the filter. `FlaggedRows`
   * states the order.
   */
  function Flagged(rows: seq<Row>, id: nat, cust: nat): (r: seq<string>)
    requires HasColumn(rows, id) && HasColumn(rows, cust)
    ensures forall x :: x in r <==> exists i :: 0 <= i < |rows| && IsAnomaly(rows[i], id, cust) && AsStr(rows[i][cust]) == x
  {
    if rows == [] then []
    else
      var last := rows[|rows| - 1];
      var p := Flagged(rows[..|rows| - 1], id, cust);
      assert forall i :: 0 <= i < |rows| - 1 ==> rows[..|rows| - 1][i] == rows[i];
      if IsAnomaly(last, id, cust) then p + [AsStr(last[cust])] else p
  }

  /** The k-th flagged value is the customer text of the k-th anomalous row. */
  lemma {:induction false} FlaggedRows(rows: seq<Row>, id: nat, cust: nat)
    requires HasColumn(rows, id) && HasColumn(rows, cust)
    ensures |Flagged(rows, id, cust)| == |AnomalyRows(rows, id, cust)|
    ensures forall k :: 0 <= k < |Flagged(rows, id, cust)| ==>
              Flagged(rows, id, cust)[k] == AsStr(rows[AnomalyRows(rows, id, cust)[k]][cust])
  {
    if rows != [] {
      var n := |rows| - 1;
      var front := rows[..n];
      FlaggedRows(front, id, cust);
      var m := Mask(rows, id, cust);
      assert m[..n] == Mask(front, id, cust);
      assert AnomalyRows(rows, id, cust) == Positions(m);
      assert AnomalyRows(front, id, cust) == Positions(m[..n]);
      assert forall i :: 0 <= i < n ==> front[i] == rows[i];
    }
  }

  /**
   * On the anomalous rows, `Distinct` of the flagged values follows row
   * order: every anomalous row carrying a later value of the list comes
   * after some anomalous row carrying an earlier one.
   */
  lemma DistinctFlaggedRowOrder(rows: seq<Row>, id: nat, cust: nat)
    requires HasColumn(rows, id) && HasColumn(rows, cust)
    ensures var best := Distinct(Flagged(rows, id, cust));
            forall a, b, q :: 0 <= a < b < |best| && 0 <= q < |rows| && IsAnomaly(rows[q], id, cust)
                 && AsStr(rows[q][cust]) == best[b]
              ==> exists p :: 0 <= p < q && IsAnomaly(rows[p], id, cust) && AsStr(rows[p][cust]) == best[a]
  {
    var f, ix := Flagged(rows, id, cust), AnomalyRows(rows, id, cust);
    var best := Distinct(f);
    FlaggedRows(rows, id, cust);
    forall a, b, q | 0 <= a < b < |best| && 0 <= q < |rows| && IsAnomaly(rows[q], id, cust)
                 && AsStr(rows[q][cust]) == best[b]
      ensures exists p :: 0 <= p < q && IsAnomaly(rows[p], id, cust) && AsStr(rows[p][cust]) == best[a]
    {
      assert q in ix;
      var m :| 0 <= m < |ix| && ix[m] == q;
      var ka := DistinctEarlier(f, a, b, m);
      var p := ix[ka];
      assert p < q && IsAnomaly(rows[p], id, cust) && AsStr(rows[p][cust]) == best[a];
    }
  }

  /**
   * If position `m` of `s` holds the `b`-th kept value, then an earlier
   * kept value first occurs before `m`.
   */
  lemma DistinctEarlier(s: seq<string>, a: nat, b: nat, m: nat) returns (k: nat)
    requires a < b < |Distinct(s)| && m < |s| && s[m] == Distinct(s)[b]
    ensures k < m && s[k] == Distinct(s)[a]
  {
    var best := Distinct(s);
    DistinctFirstOccurrenceOrder(s);
    assert best[a] in s && best[b] in s;
    k := IndexOf(s, best[a]);
    assert IndexOf(s, best[b]) <= m;
  }

  /**
   * The selection and de-duplication of app.py:86-89, reading the table
   * after the identifier column was cleaned and the customer column coerced.
   */
  method CollectTheBest(a: array<Row>, id: nat, cust: nat) returns (best: seq<string>)
    requires HasColumn(a[..], id) && HasColumn(a[..], cust)
    ensures best == Distinct(Flagged(a[..], id, cust))
  {
    best := [];
    var i := 0;
    while i < a.Length
      invariant 0 <= i <= a.Length
      invariant best == Distinct(Flagged(a[..i], id, cust))
    {
      assert a[..i + 1][..i] == a[..i];
      var row := a[i];
      var name := AsStr(row[cust]);
      if MentionsMarker(name) && !IsPresent(row[id]) && name !in best {
        best := best + [name];
      }
      i := i + 1;
    }
    assert a[..a.Length] == a[..];
  }

  /** The resolved positions are columns of the two tables. */
  predicate InBounds(t1: Table, t2: Table, rc: Resolved) {
    rc.id1 < |t1.columns| && rc.customer < |t1.columns| && rc.id2 < |t2.columns|
  }

  /** The comparison of app.py:63-77: System 1's present cleaned identifiers against all of System 2's. */
  function Comparing(t1: Table, t2: Table, rc: Resolved): Comparison
    requires WellFormed(t1) && WellFormed(t2) && InBounds(t1, t2, rc)
  {
    Compare(PresentIds(Cleaned(Column(t1.rows, rc.id1))), AllIds(Cleaned(Column(t2.rows, rc.id2))))
  }

  /** The table edits of app.py:60, 80-82 and 85, in that order: clean `id`, write the status at `slot`, coerce `cust`. */
  function Annotate(rows: seq<Row>, id: nat, cust: nat, slot: nat, c: Comparison): seq<Row>
    requires HasColumn(rows, id) && HasColumn(rows, cust) && HasSlot(rows, slot)
  {
    MapColumnShape(rows, id, CleanCell);
    var cleaned := MapColumn(rows, id, CleanCell);
    WithStatusShape(cleaned, id, slot, c);
    var annotated := WithStatus(cleaned, id, slot, c);
    MapColumnShape(annotated, cust, CoerceCell);
    MapColumn(annotated, cust, CoerceCell)
  }

  /**
   * Cell by cell, an annotated row is the original row with the identifier
   * cleaned, the customer coerced to text and the status of the cleaned
   * identifier at its slot; every other cell is unchanged.
   */
  lemma AnnotateRow(rows: seq<Row>, id: nat, cust: nat, slot: nat, c: Comparison, i: nat)
    requires HasColumn(rows, id) && HasColumn(rows, cust) && HasSlot(rows, slot)
    requires id != cust && slot != id && slot != cust && i < |rows|
    ensures var out := Annotate(rows, id, cust, slot, c);
            && |out| == |rows|
            && |out[i]| == (if slot < |rows[i]| then |rows[i]| else |rows[i]| + 1)
            && out[i][id] == Str(Clean(rows[i][id]))
            && out[i][cust] == Str(AsStr(rows[i][cust]))
            && out[i][slot] == Str(Label(StatusOf(Clean(rows[i][id]), c)))
            && forall j :: 0 <= j < |rows[i]| && j != id && j != cust && j != slot ==> out[i][j] == rows[i][j]
  {
    MapColumnShape(rows, id, CleanCell);
    var cleaned := MapColumn(rows, id, CleanCell);
    WithStatusShape(cleaned, id, slot, c);
    var annotated := WithStatus(cleaned, id, slot, c);
    MapColumnShape(annotated, cust, CoerceCell);
    var row := rows[i];
    assert cleaned[i] == row[id := CleanCell(row[id])];
    assert annotated[i] == Place(cleaned[i], slot, StatusCell(cleaned[i], id, c));
    assert annotated[i][cust] == cleaned[i][cust] == row[cust];
    var out := MapColumn(annotated, cust, CoerceCell);
    assert out == Annotate(rows, id, cust, slot, c);
    assert out[i] == annotated[i][cust := CoerceCell(annotated[i][cust])];
  }

  /**
   * What `processar_arquivos` computes once the columns are resolved: the
   * annotated table, the two counts, the three sets, the de-duplicated
   * anomaly list and the customer column's label.
   */
  function Reconciled(t1: Table, t2: Table, rc: Resolved): Output
    requires WellFormed(t1) && WellFormed(t2) && InBounds(t1, t2, rc)
  {
    var c := Comparing(t1, t2, rc);
    var final := Annotate(t1.rows, rc.id1, rc.customer, StatusSlot(t1.columns), c);
    MapColumnShape(t1.rows, rc.id1, CleanCell);
    WithStatusShape(MapColumn(t1.rows, rc.id1, CleanCell), rc.id1, StatusSlot(t1.columns), c);
    MapColumnShape(WithStatus(MapColumn(t1.rows, rc.id1, CleanCell), rc.id1, StatusSlot(t1.columns), c), rc.customer, CoerceCell);
    Output(Table(OutColumns(t1.columns), final), |c.matched|, |c.inconsistent|,
           c.matched, c.onlyFirst, c.onlySecond,
           Distinct(Flagged(final, rc.id1, rc.customer)), t1.columns[rc.customer])
  }

  /**
   * What `processar_arquivos` returns for two tables: the resolution
   * failure; the pandas error of app.py:60 or app.py:61 when a table already
   * had a 'Numero_Pedido' column, so that the renamed identifier column is
   * its second; the `KeyError` of app.py:67 when System 1 has no rows; or
   * the reconciled output.
   */
  function Expected(t1: Table, t2: Table): Result<Output, Error>
    requires WellFormed(t1) && WellFormed(t2)
  {
    match Resolve(t1.columns, t2.columns)
    case Err(e) => Err(e)
    case Ok(rc) =>
      if OrderLabel in t1.columns then Err(OrderLabelTaken1)
      else if OrderLabel in t2.columns then Err(OrderLabelTaken2)
      else if |t1.rows| == 0 then Err(NoRowsInSystem1)
      else Ok(Reconciled(t1, t2, rc))
  }

  /**
   * The outcomes in order: a resolution failure first; then, with the
   * columns resolved, System 1's clash with an existing 'Numero_Pedido'
   * column, then System 2's; then System 1 having no rows; success exactly
   * when none of these happens.
   */
  lemma ExpectedOutcome(t1: Table, t2: Table)
    requires WellFormed(t1) && WellFormed(t2)
    ensures Resolve(t1.columns, t2.columns).Err? ==> Expected(t1, t2) == Err(Resolve(t1.columns, t2.columns).error)
    ensures Expected(t1, t2) == Err(OrderLabelTaken1)
            <==> Resolve(t1.columns, t2.columns).Ok? && OrderLabel in t1.columns
    ensures Expected(t1, t2) == Err(OrderLabelTaken2)
            <==> Resolve(t1.columns, t2.columns).Ok? && OrderLabel !in t1.columns && OrderLabel in t2.columns
    ensures Expected(t1, t2) == Err(NoRowsInSystem1)
            <==> Resolve(t1.columns, t2.columns).Ok? && OrderLabel !in t1.columns && OrderLabel !in t2.columns
                 && |t1.rows| == 0
    ensures Expected(t1, t2).Ok?
            <==> Resolve(t1.columns, t2.columns).Ok? && OrderLabel !in t1.columns && OrderLabel !in t2.columns
                 && |t1.rows| > 0
  {
  }

  /**
   * The data steps of app.py:59-95, in order: clean System 1's identifier
   * column in place, clean System 2's, build the two sets and compare them,
   * write the statuses, coerce the customer column, collect the anomalies.
   */
  method ReconcileTables(t1: Table, t2: Table, rc: Resolved) returns (out: Output)
    requires WellFormed(t1) && WellFormed(t2) && InBounds(t1, t2, rc)
    ensures out == Reconciled(t1, t2, rc)
  {
    var a := new Row[|t1.rows|](i requires 0 <= i < |t1.rows| => t1.rows[i]);
    assert a[..] == t1.rows;
    var slot := StatusSlot(t1.columns);
    ApplyToColumn(a, rc.id1, CleanCell);
    ghost var cleaned := a[..];
    assert HasColumn(cleaned, rc.id1) && HasColumn(cleaned, rc.customer) && HasSlot(cleaned, slot) by {
      MapColumnShape(t1.rows, rc.id1, CleanCell);
    }
    var ids1 := ColumnText(a[..], rc.id1);
    var ids2 := Cleaned(Column(t2.rows, rc.id2));
    var c := Compare(PresentIds(ids1), AllIds(ids2));
    assert c == Comparing(t1, t2, rc) by {
      ColumnTextAfterClean(t1.rows, rc.id1);
    }
    WriteStatus(a, rc.id1, slot, c);
    assert HasColumn(a[..], rc.customer) by {
      WithStatusShape(cleaned, rc.id1, slot, c);
    }
    ApplyToColumn(a, rc.customer, CoerceCell);
    assert a[..] == Annotate(t1.rows, rc.id1, rc.customer, slot, c);
    var best := CollectTheBest(a, rc.id1, rc.customer);
    out := Output(Table(OutColumns(t1.columns), a[..]), |c.matched|, |c.inconsistent|,
                  c.matched, c.onlyFirst, c.onlySecond, best, t1.columns[rc.customer]);
  }

  /**
   * `processar_arquivos` (app.py:22-95) without reading the files: resolve
   * the columns, fail if a renamed column clashes with an existing
   * 'Numero_Pedido' or if System 1 has no rows, then reconcile.
   */
  method Process(t1: Table, t2: Table) returns (res: Result<Output, Error>)
    requires WellFormed(t1) && WellFormed(t2)
    ensures res == Expected(t1, t2)
  {
    var resolved := ResolveColumns(t1.columns, t2.columns);
    if resolved.Err? {
      return Err(resolved.error);
    }
    if OrderLabel in t1.columns {
      return Err(OrderLabelTaken1);
    }
    if OrderLabel in t2.columns {
      return Err(OrderLabelTaken2);
    }
    if |t1.rows| == 0 {
      return Err(NoRowsInSystem1);
    }
    var out := ReconcileTables(t1, t2, resolved.value);
    res := Ok(out);
  }

  /** 'Status_Comparacao' normalises to neither an identifier nor a customer name. */
  lemma StatusColumnIsNotRequired()
    ensures NormalizeName(StatusColumn) != OrderColumn1
    ensures !IsCustomerName(NormalizeName(StatusColumn))
  {
    NormalizeUnpadded(StatusColumn);
    var n := NormalizeName(StatusColumn);
    assert n == "status_comparacao";
    assert 'l' !in n;
    NoMarkerWithoutL(n);
  }

  /**
   * On success the identifier, customer and status positions are three
   * different columns, and the first two are columns of System 1.
   */
  lemma PositionsApart(t1: Table, t2: Table)
    requires Resolve(t1.columns, t2.columns).Ok?
    ensures var rc := Resolve(t1.columns, t2.columns).value;
            var slot := StatusSlot(t1.columns);
            && InBounds(t1, t2, rc)
            && rc.id1 != rc.customer && slot != rc.id1 && slot != rc.customer
            && slot <= |t1.columns| && OutColumns(t1.columns)[slot] == StatusColumn
  {
    ResolvedPositions(t1.columns, t2.columns);
    StatusColumnIsNotRequired();
  }

  /** On success `processar_arquivos` returns the reconciled output of the resolved positions. */
  lemma ExpectedIsReconciled(t1: Table, t2: Table)
    requires WellFormed(t1) && WellFormed(t2) && Expected(t1, t2).Ok?
    ensures Resolve(t1.columns, t2.columns).Ok?
    ensures InBounds(t1, t2, Resolve(t1.columns, t2.columns).value)
    ensures Expected(t1, t2) == Ok(Reconciled(t1, t2, Resolve(t1.columns, t2.columns).value))
  {
    PositionsApart(t1, t2);
  }

  /**
   * The returned table has System 1's rows in System 1's order and differs
   * from it in three ways only: the status column is added (or overwritten
   * when System 1 already has one), the identifier column is cleaned and
   * keeps its label, and the customer column is coerced to text.
   */
  lemma ExpectedTable(t1: Table, t2: Table)
    requires WellFormed(t1) && WellFormed(t2) && Expected(t1, t2).Ok?
    ensures var rc := Resolve(t1.columns, t2.columns).value;
            var out := Expected(t1, t2).value;
            var slot := StatusSlot(t1.columns);
            && out.table.columns == (if StatusColumn in t1.columns then t1.columns else t1.columns + [StatusColumn])
            && out.table.columns[slot] == StatusColumn
            && out.table.columns[rc.id1] == t1.columns[rc.id1]
            && out.customerColumn == t1.columns[rc.customer]
            && |out.table.rows| == |t1.rows|
            && (forall i :: 0 <= i < |t1.rows| ==> |out.table.rows[i]| == |out.table.columns|)
            && (forall i :: 0 <= i < |t1.rows| ==> out.table.rows[i][rc.id1] == Str(Clean(t1.rows[i][rc.id1])))
            && (forall i :: 0 <= i < |t1.rows| ==> out.table.rows[i][rc.customer] == Str(AsStr(t1.rows[i][rc.customer])))
            && (forall i, j :: 0 <= i < |t1.rows| && 0 <= j < |t1.columns| && j != rc.id1 && j != rc.customer && j != slot
                  ==> out.table.rows[i][j] == t1.rows[i][j])
  {
    var rc := Resolve(t1.columns, t2.columns).value;
    ExpectedIsReconciled(t1, t2);
    PositionsApart(t1, t2);
    forall i | 0 <= i < |t1.rows| {
      AnnotateRow(t1.rows, rc.id1, rc.customer, StatusSlot(t1.columns), Comparing(t1, t2, rc), i);
    }
  }

  /** The reconciled status of row `i`, for any positions meeting the shape of a successful resolution. */
  lemma ReconciledStatus(t1: Table, t2: Table, rc: Resolved, i: nat)
    requires WellFormed(t1) && WellFormed(t2) && InBounds(t1, t2, rc)
    requires rc.id1 != rc.customer && StatusSlot(t1.columns) != rc.id1 && StatusSlot(t1.columns) != rc.customer
    requires i < |t1.rows|
    ensures var out := Reconciled(t1, t2, rc);
            var x := Clean(t1.rows[i][rc.id1]);
            var ids2 := Cleaned(Column(t2.rows, rc.id2));
            && |out.table.rows| == |t1.rows| && StatusSlot(t1.columns) < |out.table.rows[i]|
            && var cell := out.table.rows[i][StatusSlot(t1.columns)];
            && (cell == Str("OK") || cell == Str("Não Lançado") || cell == Str("Sem Pedido"))
            && (cell == Str("OK") <==> x != "" && x in ids2)
            && (x != "" ==> (cell == Str("Não Lançado") <==> x !in ids2))
            && (x == "" ==> (cell == Str("Sem Pedido") <==> "" !in ids2))
            && (x == "" ==> (cell == Str("Não Lançado") <==> "" in ids2))
  {
    AnnotateRow(t1.rows, rc.id1, rc.customer, StatusSlot(t1.columns), Comparing(t1, t2, rc), i);
    StatusOfSystem1Row(Column(t1.rows, rc.id1), Cleaned(Column(t2.rows, rc.id2)), i);
    assert Cleaned(Column(t1.rows, rc.id1))[i] == Clean(t1.rows[i][rc.id1]);
  }

  /**
   * The status column, row by row. With `x` the row's cleaned identifier
   * and `ids2` System 2's cleaned identifiers: the row is 'OK' exactly when
   * `x` is non-empty and occurs in System 2, a non-empty `x` is otherwise
   * 'Não Lançado', and an empty `x` is 'Sem Pedido' unless System 2 also
   * holds an empty identifier, in which case it is 'Não Lançado'.
   */
  lemma ExpectedStatus(t1: Table, t2: Table, i: nat)
    requires WellFormed(t1) && WellFormed(t2) && Expected(t1, t2).Ok? && i < |t1.rows|
    ensures var rc := Resolve(t1.columns, t2.columns).value;
            var out := Expected(t1, t2).value;
            var x := Clean(t1.rows[i][rc.id1]);
            var ids2 := Cleaned(Column(t2.rows, rc.id2));
            && |out.table.rows| == |t1.rows| && StatusSlot(t1.columns) < |out.table.rows[i]|
            && var cell := out.table.rows[i][StatusSlot(t1.columns)];
            && (cell == Str("OK") || cell == Str("Não Lançado") || cell == Str("Sem Pedido"))
            && (cell == Str("OK") <==> x != "" && x in ids2)
            && (x != "" ==> (cell == Str("Não Lançado") <==> x !in ids2))
            && (x == "" ==> (cell == Str("Sem Pedido") <==> "" !in ids2))
            && (x == "" ==> (cell == Str("Não Lançado") <==> "" in ids2))
  {
    ExpectedIsReconciled(t1, t2);
    PositionsApart(t1, t2);
    ReconciledStatus(t1, t2, Resolve(t1.columns, t2.columns).value, i);
  }

  /** The comparison of the two identifier columns, as sets of cleaned identifiers. */
  lemma ComparingSets(t1: Table, t2: Table, rc: Resolved)
    requires WellFormed(t1) && WellFormed(t2) && InBounds(t1, t2, rc)
    ensures var c := Comparing(t1, t2, rc);
            var a := AllIds(Cleaned(Column(t1.rows, rc.id1))) - {""};
            var b := AllIds(Cleaned(Column(t2.rows, rc.id2)));
            && c.matched == a * b && c.onlyFirst == a - b && c.onlySecond == b - a
            && c.matched !! c.onlyFirst && c.matched !! c.onlySecond && c.onlyFirst !! c.onlySecond
            && c.matched + c.onlyFirst + c.onlySecond == a + b
            && |c.inconsistent| == |c.onlyFirst| + |c.onlySecond|
  {
    PresentIdsOfCleaned(Column(t1.rows, rc.id1));
    var a := AllIds(Cleaned(Column(t1.rows, rc.id1))) - {""};
    var b := AllIds(Cleaned(Column(t2.rows, rc.id2)));
    ComparisonPartition(a, b);
    ComparisonCounts(a, b);
  }

  /**
   * The sets and counts returned. With A System 1's non-empty cleaned
   * identifiers and B all of System 2's cleaned identifiers: the matched
   * set is A * B, the one-sided sets are A - B and B - A, the three are
   * pairwise disjoint and together make up A + B; the first count is the
   * number of matches and the second the number of one-sided identifiers.
   */
  lemma ExpectedSets(t1: Table, t2: Table)
    requires WellFormed(t1) && WellFormed(t2) && Expected(t1, t2).Ok?
    ensures var rc := Resolve(t1.columns, t2.columns).value;
            var out := Expected(t1, t2).value;
            var a := AllIds(Cleaned(Column(t1.rows, rc.id1))) - {""};
            var b := AllIds(Cleaned(Column(t2.rows, rc.id2)));
            && out.matched == a * b && out.onlyFirst == a - b && out.onlySecond == b - a
            && out.matched !! out.onlyFirst && out.matched !! out.onlySecond && out.onlyFirst !! out.onlySecond
            && out.matched + out.onlyFirst + out.onlySecond == a + b
            && out.matchedCount == |out.matched|
            && out.inconsistentCount == |out.onlyFirst| + |out.onlySecond|
  {
    ExpectedIsReconciled(t1, t2);
    ComparingSets(t1, t2, Resolve(t1.columns, t2.columns).value);
  }

  /** Two tables whose rows agree on the customer text and on the identifier's presence flag the same values. */
  lemma {:induction false} FlaggedAgree(r1: seq<Row>, r2: seq<Row>, id: nat, cust: nat)
    requires HasColumn(r1, id) && HasColumn(r1, cust) && HasColumn(r2, id) && HasColumn(r2, cust) && |r1| == |r2|
    requires forall i :: 0 <= i < |r1| ==>
               AsStr(r1[i][cust]) == AsStr(r2[i][cust]) && (IsPresent(r1[i][id]) <==> IsPresent(r2[i][id]))
    ensures Flagged(r1, id, cust) == Flagged(r2, id, cust)
  {
    if r1 != [] {
      var n := |r1| - 1;
      FlaggedAgree(r1[..n], r2[..n], id, cust);
    }
  }

  /** The anomaly list of the reconciled output is computed as if on System 1's original rows. */
  lemma ReconciledTheBest(t1: Table, t2: Table, rc: Resolved)
    requires WellFormed(t1) && WellFormed(t2) && InBounds(t1, t2, rc)
    requires rc.id1 != rc.customer && StatusSlot(t1.columns) != rc.id1 && StatusSlot(t1.columns) != rc.customer
    ensures Reconciled(t1, t2, rc).theBest == Distinct(Flagged(t1.rows, rc.id1, rc.customer))
  {
    var c := Comparing(t1, t2, rc);
    var final := Annotate(t1.rows, rc.id1, rc.customer, StatusSlot(t1.columns), c);
    forall i | 0 <= i < |t1.rows|
      ensures |final| == |t1.rows| && rc.id1 < |final[i]| && rc.customer < |final[i]|
      ensures AsStr(final[i][rc.customer]) == AsStr(t1.rows[i][rc.customer])
      ensures IsPresent(final[i][rc.id1]) <==> IsPresent(t1.rows[i][rc.id1])
    {
      AnnotateRow(t1.rows, rc.id1, rc.customer, StatusSlot(t1.columns), c, i);
      PresentAfterClean(t1.rows[i][rc.id1]);
    }
    FlaggedAgree(final, t1.rows, rc.id1, rc.customer);
  }

  /**
   * `best` is the anomaly list of `rows`: it holds exactly the customer
   * texts of the rows passing the filter, each once, and in row order of
   * first occurrence: every anomalous row carrying a later value of the list
   * comes after some anomalous row carrying an earlier one.
   */
  ghost predicate IsAnomalyList(rows: seq<Row>, id: nat, cust: nat, best: seq<string>)
    requires HasColumn(rows, id) && HasColumn(rows, cust)
  {
    && (forall x :: x in best <==>
          exists i :: 0 <= i < |rows| && IsAnomaly(rows[i], id, cust) && AsStr(rows[i][cust]) == x)
    && NoDuplicates(best)
    && (forall a, b, q :: 0 <= a < b < |best| && 0 <= q < |rows| && IsAnomaly(rows[q], id, cust)
          && AsStr(rows[q][cust]) == best[b]
          ==> exists p :: 0 <= p < q && IsAnomaly(rows[p], id, cust) && AsStr(rows[p][cust]) == best[a])
  }

  /**
   * `Distinct` of the flagged values is the anomaly list, and keeps the
   * flagged values in the order of their first occurrence.
   */
  lemma TheBestSpec(rows: seq<Row>, id: nat, cust: nat)
    requires HasColumn(rows, id) && HasColumn(rows, cust)
    ensures IsAnomalyList(rows, id, cust, Distinct(Flagged(rows, id, cust)))
    ensures var flagged := Flagged(rows, id, cust);
            var best := Distinct(flagged);
            forall i, j :: 0 <= i < j < |best| ==> IndexOf(flagged, best[i]) < IndexOf(flagged, best[j])
  {
    DistinctFirstOccurrenceOrder(Flagged(rows, id, cust));
    DistinctFlaggedRowOrder(rows, id, cust);
  }

  /**
   * The anomaly list returned: the customer values of System 1's rows whose
   * customer mentions 'THE BEST' in any case and whose identifier is not
   * present, each once, in the order of first occurrence among those rows.
   */
  lemma ExpectedTheBest(t1: Table, t2: Table)
    requires WellFormed(t1) && WellFormed(t2) && Expected(t1, t2).Ok?
    ensures var rc := Resolve(t1.columns, t2.columns).value;
            var best := Expected(t1, t2).value.theBest;
            && best == Distinct(Flagged(t1.rows, rc.id1, rc.customer))
            && IsAnomalyList(t1.rows, rc.id1, rc.customer, best)
  {
    var rc := Resolve(t1.columns, t2.columns).value;
    ExpectedIsReconciled(t1, t2);
    PositionsApart(t1, t2);
    TheBestSpec(t1.rows, rc.id1, rc.customer);
    ReconciledTheBest(t1, t2, rc);
  }
}
