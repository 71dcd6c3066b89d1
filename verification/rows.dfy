/**
  Rows of the survey table, the predicates that clean and select them around the
  Mirotice event of 24 April 2025, and the derived label columns assigned to the
  selected rows.
 */
module Rows {
  import opened Optional
  import opened Cells
  import opened Labels
  import opened Sequences

  /**
    An observation time already converted to UTC: nanoseconds since the Unix epoch
    (the resolution of a pandas timestamp), with its UTC calendar year and month.
   */
  datatype Instant = Instant(ns: int, year: int, month: int)

  /** The label columns assigned to the event table; None while a column does not exist. */
  datatype Derived = Derived(
    location: Option<Location>,   // 'Mist_Pozorovani_Kat'
    feltBy: Option<FeltBy>,       // 'Pocit_Kategorie_Text'
    tremor: Option<string>,       // 'Intenzita_Kat'
    fear: Option<bool>,           // 'Strach_Pocit_Kat'
    movement: Option<bool>,       // 'Pohyb_Predmetu_Agregovany'
    damage: Option<Damage>)       // 'Poskozeni_Obecne_Kat'

  const NotDerived: Derived := Derived(None, None, None, None, None, None)

  /**
    One survey response: its time (None when it did not parse), its coordinates
    (None when `pd.to_numeric` could not coerce them), the other raw cells by column
    name, and the label columns derived so far.
   */
  datatype Row = Row(time: Option<Instant>, lat: Option<real>, lon: Option<real>, cells: map<string, Cell>, derived: Derived)

  /** The cell in a column; a column the row lacks reads as NaN. */
  function CellAt(cells: map<string, Cell>, column: string): Cell {
    if column in cells then cells[column] else Missing
  }

  /* ---------- Cleaning and selection ---------- */

  const TargetYear: int := 2025
  const TargetMonth: int := 4
  const NsPerSecond: int := 1_000_000_000
  /** 2025-04-24 17:32:47.3 UTC. */
  const EventInstant: int := 1_745_515_967_300_000_000
  /** `pd.Timedelta(hours=1.5)`. */
  const HalfWindow: int := 5400 * NsPerSecond
  const WindowStart: int := EventInstant - HalfWindow
  const WindowEnd: int := EventInstant + HalfWindow

  /** Kept by `dropna(subset=[time])`. */
  predicate HasTime(r: Row) {
    r.time.Some?
  }

  /** Kept by `dropna(subset=[lat, lon])`. */
  predicate HasCoordinates(r: Row) {
    r.lat.Some? && r.lon.Some?
  }

  /** The April 2025 mask; a missing time (NaT) compares false. */
  predicate InTargetMonth(r: Row) {
    r.time.Some? && r.time.value.year == TargetYear && r.time.value.month == TargetMonth
  }

  /** The event mask `start <= t <= end`, both ends inclusive; NaT compares false. */
  predicate InEventWindow(r: Row) {
    r.time.Some? && WindowStart <= r.time.value.ns <= WindowEnd
  }

  /** What the two `dropna` calls leave. */
  function Cleaned(rows: seq<Row>): seq<Row> {
    Where(Where(rows, HasTime), HasCoordinates)
  }

  /** `df_filtered_year_month`. */
  function AprilRows(rows: seq<Row>): seq<Row> {
    Where(Cleaned(rows), InTargetMonth)
  }

  /** `df_event`. */
  function EventRows(rows: seq<Row>): seq<Row> {
    Where(AprilRows(rows), InEventWindow)
  }

  /** Every test a row must pass to reach the event table. */
  predicate Selected(r: Row) {
    HasTime(r) && HasCoordinates(r) && InTargetMonth(r) && InEventWindow(r)
  }

  predicate Complete(r: Row) {
    HasTime(r) && HasCoordinates(r)
  }

  predicate CompleteInApril(r: Row) {
    Complete(r) && InTargetMonth(r)
  }

  /**
    Cleaning and the April filter keep exactly the rows with a time, a latitude and
    a longitude whose time lies in April 2025, each with its multiplicity, unaltered
    and in their original order.
   */
  lemma AprilRowsAreMaskSelection(rows: seq<Row>)
    ensures AprilRows(rows) == Where(rows, CompleteInApril)
    ensures forall r :: r in AprilRows(rows) ==>
      r.time.Some? && r.lat.Some? && r.lon.Some? && r.time.value.year == 2025 && r.time.value.month == 4
    ensures forall r :: multiset(AprilRows(rows))[r] == if CompleteInApril(r) then multiset(rows)[r] else 0
  {
    WhereWhere(rows, HasTime, HasCoordinates, Complete);
    WhereWhere(rows, Complete, InTargetMonth, CompleteInApril);
    WhereMultiplicity(rows, CompleteInApril);
  }

  /**
    A row reaches the event table iff it has coordinates, its time lies in April
    2025 and within 1.5 h of the event, both bounds included. The event table is the
    mask selection of the input by those tests, so (WhereSelectsMask) its k-th row is
    the input row at the k-th position that passes every test.
   */
  lemma EventRowsAreMaskSelection(rows: seq<Row>)
    ensures EventRows(rows) == Where(rows, Selected)
    ensures forall r :: multiset(EventRows(rows))[r] == if Selected(r) then multiset(rows)[r] else 0
  {
    AprilRowsAreMaskSelection(rows);
    WhereWhere(rows, CompleteInApril, InEventWindow, Selected);
    WhereMultiplicity(rows, Selected);
  }

  /**
    The window is the closed interval of 1.5 h (5400 s) either side of the event
    instant: a time exactly at either end is kept, one nanosecond beyond is not.
   */
  lemma WindowIsClosed(r: Row)
    requires r.time.Some?
    ensures InEventWindow(r) <==> -5400 * NsPerSecond <= r.time.value.ns - EventInstant <= 5400 * NsPerSecond
    ensures r.time.value.ns == EventInstant - 5400 * NsPerSecond ==> InEventWindow(r)
    ensures r.time.value.ns == EventInstant + 5400 * NsPerSecond ==> InEventWindow(r)
    ensures r.time.value.ns == EventInstant + 5400 * NsPerSecond + 1 ==> !InEventWindow(r)
  {
  }

  /** 2025-04-01 00:00 UTC and 2025-05-01 00:00 UTC. */
  const AprilStart: int := 1_743_465_600 * NsPerSecond
  const MayStart: int := 1_746_057_600 * NsPerSecond

  /** The year and month carried with a time are those of its instant, as far as April 2025 goes. */
  predicate CalendarAgrees(t: Instant) {
    (t.year == TargetYear && t.month == TargetMonth) <==> AprilStart <= t.ns < MayStart
  }

  /**
    The whole window lies in April 2025, so a time in the window whose year and month
    agree with its instant passes the month filter too.
   */
  lemma WindowInsideApril(r: Row)
    requires r.time.Some? ==> CalendarAgrees(r.time.value)
    ensures AprilStart <= WindowStart && WindowEnd < MayStart
    ensures InEventWindow(r) ==> InTargetMonth(r)
  {
  }

  /**
    When every time's year and month agree with its instant, the April filter changes
    nothing the window would keep: the event table is the cleaned table cut to the window.
   */
  lemma MonthFilterIsRedundant(rows: seq<Row>)
    requires forall r :: r in rows && r.time.Some? ==> CalendarAgrees(r.time.value)
    ensures EventRows(rows) == Where(Cleaned(rows), InEventWindow)
  {
    var cleaned := Cleaned(rows);
    forall r | r in cleaned ensures InEventWindow(r) == (InTargetMonth(r) && InEventWindow(r)) {
      WhereMembers(Where(rows, HasTime), HasCoordinates, r);
      WhereMembers(rows, HasTime, r);
      WindowInsideApril(r);
    }
    WhereWhere(cleaned, InTargetMonth, InEventWindow, (r: Row) => InTargetMonth(r) && InEventWindow(r));
    WhereCongruent(cleaned, (r: Row) => InTargetMonth(r) && InEventWindow(r), InEventWindow);
  }

  /* ---------- Object-movement columns ---------- */

  /** `[col for col in COLS_OBJECT_MOVEMENT_DETAILS if col in df_event.columns]`. */
  function PresentMovementColumns(columns: set<string>): seq<string> {
    Where(MovementColumns, (col: string) => col in columns)
  }

  function MovementCells(cells: map<string, Cell>, cols: seq<string>): seq<Cell> {
    seq(|cols|, k requires 0 <= k < |cols| => CellAt(cells, cols[k]))
  }

  /** The aggregated movement flag of one row over the given columns. */
  function Moved(cells: map<string, Cell>, cols: seq<string>): bool {
    AnyObserved(MovementCells(cells, cols))
  }

  /** The aggregated flag over some columns is true iff one of them holds a present, non-blank answer. */
  lemma MovedOverColumns(row: map<string, Cell>, cols: seq<string>)
    ensures Moved(row, cols) <==> exists col :: col in cols && Observed(CellAt(row, col))
  {
    var cells := MovementCells(row, cols);
    if Moved(row, cols) {
      var k :| 0 <= k < |cells| && Observed(cells[k]);
      assert cols[k] in cols;
    } else {
      forall col | col in cols ensures !Observed(CellAt(row, col)) {
        var k :| 0 <= k < |cols| && cols[k] == col;
        assert cells[k] == CellAt(row, col);
      }
    }
  }

  /** The movement columns taken into account are those of the fixed list that the table has. */
  lemma PresentMovementColumnsIff(columns: set<string>, col: string)
    ensures col in PresentMovementColumns(columns) <==> col in MovementColumns && col in columns
  {
    WhereMembers(MovementColumns, (c: string) => c in columns, col);
  }

  /**
    A row is flagged as showing movement iff some movement column that the table has
    holds a present, non-blank value in that row.
   */
  lemma MovedIff(row: map<string, Cell>, columns: set<string>)
    ensures Moved(row, PresentMovementColumns(columns)) <==>
      exists col :: col in MovementColumns && col in columns && Observed(CellAt(row, col))
  {
    var present := PresentMovementColumns(columns);
    MovedOverColumns(row, present);
    forall col ensures col in present <==> col in MovementColumns && col in columns {
      PresentMovementColumnsIff(columns, col);
    }
  }

  /* ---------- Label columns, one assignment each ---------- */

  /**
    The labels the six assignments give a row with the raw cells `cells`: None for a
    column that is not derived because its source column is absent.
   */
  function LabelsOf(columns: set<string>, cells: map<string, Cell>): Derived {
    Derived(LocationLabel(columns, cells), FeltByLabel(columns, cells), TremorLabel(columns, cells),
      FearLabel(columns, cells), MovementLabel(columns, cells), DamageLabel(columns, cells))
  }

  function LocationLabel(columns: set<string>, cells: map<string, Cell>): Option<Location> {
    if InBuildingColumn in columns then Some(LocationOf(CellAt(cells, InBuildingColumn))) else None
  }

  function FeltByLabel(columns: set<string>, cells: map<string, Cell>): Option<FeltBy> {
    if FeltByColumn in columns then Some(FeltByOf(CellAt(cells, FeltByColumn))) else None
  }

  function TremorLabel(columns: set<string>, cells: map<string, Cell>): Option<string> {
    if TremorColumn in columns then Some(TremorOf(CellAt(cells, TremorColumn))) else None
  }

  function FearLabel(columns: set<string>, cells: map<string, Cell>): Option<bool> {
    if FearColumn in columns then Some(FearOf(CellAt(cells, FearColumn))) else None
  }

  function MovementLabel(columns: set<string>, cells: map<string, Cell>): Option<bool> {
    var present := PresentMovementColumns(columns);
    if present != [] then Some(Moved(cells, present)) else None
  }

  function DamageLabel(columns: set<string>, cells: map<string, Cell>): Option<Damage> {
    if DamageColumn in columns then Some(DamageOf(CellAt(cells, DamageColumn))) else None
  }

  /** One row's 'Mist_Pozorovani_Kat', set when the place column exists. */
  function WithLocation(columns: set<string>, r: Row): Row {
    if InBuildingColumn in columns then r.(derived := r.derived.(location := LocationLabel(columns, r.cells))) else r
  }

  /** One row's 'Pocit_Kategorie_Text', set when the felt-by column exists. */
  function WithFeltBy(columns: set<string>, r: Row): Row {
    if FeltByColumn in columns then r.(derived := r.derived.(feltBy := FeltByLabel(columns, r.cells))) else r
  }

  /** One row's 'Intenzita_Kat', set when the tremor column exists. */
  function WithTremor(columns: set<string>, r: Row): Row {
    if TremorColumn in columns then r.(derived := r.derived.(tremor := TremorLabel(columns, r.cells))) else r
  }

  /** One row's 'Strach_Pocit_Kat', set when the fear column exists. */
  function WithFear(columns: set<string>, r: Row): Row {
    if FearColumn in columns then r.(derived := r.derived.(fear := FearLabel(columns, r.cells))) else r
  }

  /** One row's 'Pohyb_Predmetu_Agregovany', set when any movement column exists. */
  function WithMovement(columns: set<string>, r: Row): Row {
    if PresentMovementColumns(columns) != [] then r.(derived := r.derived.(movement := MovementLabel(columns, r.cells))) else r
  }

  /** One row's 'Poskozeni_Obecne_Kat', set when the damage column exists. */
  function WithDamage(columns: set<string>, r: Row): Row {
    if DamageColumn in columns then r.(derived := r.derived.(damage := DamageLabel(columns, r.cells))) else r
  }

  /** `df_event.loc[:, 'Mist_Pozorovani_Kat'] = ...`, applied to every row. */
  function AssignLocation(columns: set<string>, rows: seq<Row>): seq<Row> {
    seq(|rows|, i requires 0 <= i < |rows| => WithLocation(columns, rows[i]))
  }

  /** `df_event.loc[:, 'Pocit_Kategorie_Text'] = ...`, applied to every row. */
  function AssignFeltBy(columns: set<string>, rows: seq<Row>): seq<Row> {
    seq(|rows|, i requires 0 <= i < |rows| => WithFeltBy(columns, rows[i]))
  }

  /** `df_event.loc[:, 'Intenzita_Kat'] = ...`, applied to every row. */
  function AssignTremor(columns: set<string>, rows: seq<Row>): seq<Row> {
    seq(|rows|, i requires 0 <= i < |rows| => WithTremor(columns, rows[i]))
  }

  /** `df_event.loc[:, 'Strach_Pocit_Kat'] = ...`, applied to every row. */
  function AssignFear(columns: set<string>, rows: seq<Row>): seq<Row> {
    seq(|rows|, i requires 0 <= i < |rows| => WithFear(columns, rows[i]))
  }

  /** `df_event.loc[:, 'Pohyb_Predmetu_Agregovany'] = ...`, applied to every row. */
  function AssignMovement(columns: set<string>, rows: seq<Row>): seq<Row> {
    seq(|rows|, i requires 0 <= i < |rows| => WithMovement(columns, rows[i]))
  }

  /** `df_event.loc[:, 'Poskozeni_Obecne_Kat'] = ...`, applied to every row. */
  function AssignDamage(columns: set<string>, rows: seq<Row>): seq<Row> {
    seq(|rows|, i requires 0 <= i < |rows| => WithDamage(columns, rows[i]))
  }

  /** The six assignments in the order the analysis makes them. */
  function DeriveAll(columns: set<string>, rows: seq<Row>): seq<Row> {
    AssignDamage(columns, AssignMovement(columns, AssignFear(columns, AssignTremor(columns,
      AssignFeltBy(columns, AssignLocation(columns, rows))))))
  }

  /** The six assignments, seen from one row. */
  lemma RowLabels(columns: set<string>, r: Row)
    requires r.derived == NotDerived
    ensures WithDamage(columns, WithMovement(columns, WithFear(columns, WithTremor(columns,
      WithFeltBy(columns, WithLocation(columns, r)))))) == r.(derived := LabelsOf(columns, r.cells))
  {
    var cells := r.cells;
    var r1 := WithLocation(columns, r);
    assert r1 == r.(derived := r.derived.(location := LocationLabel(columns, cells)));
    var r2 := WithFeltBy(columns, r1);
    assert r2 == r1.(derived := r1.derived.(feltBy := FeltByLabel(columns, cells)));
    var r3 := WithTremor(columns, r2);
    assert r3 == r2.(derived := r2.derived.(tremor := TremorLabel(columns, cells)));
    var r4 := WithFear(columns, r3);
    assert r4 == r3.(derived := r3.derived.(fear := FearLabel(columns, cells)));
    var r5 := WithMovement(columns, r4);
    assert r5 == r4.(derived := r4.derived.(movement := MovementLabel(columns, cells)));
    var r6 := WithDamage(columns, r5);
    assert r6 == r5.(derived := r5.derived.(damage := DamageLabel(columns, cells)));
  }

  /**
    The assignments keep the number, order and raw content of the rows, and give
    every row exactly one label in each derived column whose source column exists
    (none where it does not); each label depends on that row's own cells only.
   */
  lemma DeriveAllLabelsEachRow(columns: set<string>, rows: seq<Row>)
    requires forall r :: r in rows ==> r.derived == NotDerived
    ensures |DeriveAll(columns, rows)| == |rows|
    ensures forall i :: 0 <= i < |rows| ==>
      DeriveAll(columns, rows)[i] == rows[i].(derived := LabelsOf(columns, rows[i].cells))
  {
    forall i | 0 <= i < |rows|
      ensures DeriveAll(columns, rows)[i] == rows[i].(derived := LabelsOf(columns, rows[i].cells))
    {
      assert rows[i] in rows;
      RowLabels(columns, rows[i]);
    }
  }

  /**
    Loaded rows carry no labels, so each row of the labelled event table is the event
    row with its own labels and nothing else changed.
   */
  lemma EventRowsLabelled(columns: set<string>, loaded: seq<Row>)
    requires forall r :: r in loaded ==> r.derived == NotDerived
    ensures |DeriveAll(columns, EventRows(loaded))| == |EventRows(loaded)|
    ensures forall i :: 0 <= i < |EventRows(loaded)| ==>
      DeriveAll(columns, EventRows(loaded))[i]
        == EventRows(loaded)[i].(derived := LabelsOf(columns, EventRows(loaded)[i].cells))
  {
    var selected := EventRows(loaded);
    forall r | r in selected ensures r.derived == NotDerived {
      EventRowsAreMaskSelection(loaded);
      WhereMembers(loaded, Selected, r);
    }
    DeriveAllLabelsEachRow(columns, selected);
  }

}
