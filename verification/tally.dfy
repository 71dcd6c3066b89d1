/**
  The integer counts the analysis reports for the event table: `value_counts()` of
  each derived label column, and for each movement column present the number of rows
  in which that column holds an answer. Percentages and printing are not modelled.
  Every count depends on the raw cells of the rows only, given here as a table: one
  map from column name to cell per row.
 */
module Tally {
  import opened Optional
  import opened Cells
  import opened Labels
  import opened Sequences
  import opened Rows

  type Table = seq<map<string, Cell>>

  /* ---------- The label columns, computed from the raw cells ---------- */

  function LocationColumnOf(table: Table): seq<Location> {
    seq(|table|, i requires 0 <= i < |table| => LocationOf(CellAt(table[i], InBuildingColumn)))
  }

  function FeltByColumnOf(table: Table): seq<FeltBy> {
    seq(|table|, i requires 0 <= i < |table| => FeltByOf(CellAt(table[i], FeltByColumn)))
  }

  function TremorColumnOf(table: Table): seq<string> {
    seq(|table|, i requires 0 <= i < |table| => TremorOf(CellAt(table[i], TremorColumn)))
  }

  function FearColumnOf(table: Table): seq<bool> {
    seq(|table|, i requires 0 <= i < |table| => FearOf(CellAt(table[i], FearColumn)))
  }

  function MovementColumnOf(columns: set<string>, table: Table): seq<bool> {
    seq(|table|, i requires 0 <= i < |table| => Moved(table[i], PresentMovementColumns(columns)))
  }

  function DamageColumnOf(table: Table): seq<Damage> {
    seq(|table|, i requires 0 <= i < |table| => DamageOf(CellAt(table[i], DamageColumn)))
  }

  /** The rows (by position) in which movement column `col` holds a present, non-blank answer. */
  function ObservedRows(table: Table, col: string): set<int> {
    set k | 0 <= k < |table| && Observed(CellAt(table[k], col))
  }

  /* ---------- Counting ---------- */

  /**
    What the analysis reports: for each label column the count of every label (None
    where the column is not derived), and one observed count per movement column
    present, in the order of the movement column list.
   */
  datatype Report = Report(
    location: Option<multiset<Location>>,
    feltBy: Option<multiset<FeltBy>>,
    tremor: Option<multiset<string>>,
    fear: Option<multiset<bool>>,
    movement: Option<multiset<bool>>,
    observed: seq<nat>,
    damage: Option<multiset<Damage>>)

  /**
    The counts reported for a label column: present exactly when the column was
    derived, and then counting each label as often as it occurs among `labels`.
   */
  ghost predicate CountsOf<T(!new)>(counts: Option<multiset<T>>, derived: bool, labels: seq<T>) {
    && (counts.Some? <==> derived)
    && (counts.Some? ==> forall v :: counts.value[v] == Occurrences(labels, v))
  }

  /**
    `value_counts()` of a derived column, when it was derived: the column holds
    `labels[i]` in row `i`, and each label is counted as often as it occurs.
   */
  method CountColumn<T(==,!new)>(derived: bool, rows: seq<Row>, column: Derived -> Option<T>, ghost labels: seq<T>)
    returns (counts: Option<multiset<T>>)
    requires derived ==> |labels| == |rows|
    requires derived ==> forall i :: 0 <= i < |rows| ==> column(rows[i].derived) == Some(labels[i])
    ensures CountsOf(counts, derived, labels)
    ensures counts.Some? ==> |counts.value| == |rows|
  {
    counts := None;
    if derived {
      var values := seq(|rows|, i requires 0 <= i < |rows| => column(rows[i].derived).value);
      assert values == labels;
      var tally := ValueCounts(values);
      counts := Some(tally);
    }
  }

  /**
    `(df_event[col].notna() & (df_event[col].astype(str).str.strip() != '')).sum()`:
    the number of rows whose cell in `col` is a present, non-blank answer.
   */
  method CountObserved(table: Table, col: string) returns (n: nat)
    ensures n == |ObservedRows(table, col)|
  {
    n := 0;
    var i := 0;
    while i < |table|
      invariant 0 <= i <= |table|
      invariant n == |set k | 0 <= k < i && Observed(CellAt(table[k], col))|
    {
      ghost var before := set k | 0 <= k < i && Observed(CellAt(table[k], col));
      ghost var after := set k | 0 <= k < i + 1 && Observed(CellAt(table[k], col));
      assert i !in before;
      if Observed(CellAt(table[i], col)) {
        assert after == before + {i};
        n := n + 1;
      } else {
        assert after == before;
      }
      i := i + 1;
    }
  }

  /** The loop over the movement columns present: one observed count per column, in order. */
  method ObservedCounts(table: Table, present: seq<string>) returns (observed: seq<nat>)
    ensures |observed| == |present|
    ensures forall j :: 0 <= j < |present| ==> observed[j] == |ObservedRows(table, present[j])|
  {
    observed := [];
    for j := 0 to |present|
      invariant |observed| == j
      invariant forall k :: 0 <= k < j ==> observed[k] == |ObservedRows(table, present[k])|
    {
      var n := CountObserved(table, present[j]);
      observed := observed + [n];
    }
  }

  /* ---------- What the counts add up to ---------- */

  lemma TwoLabelsAddUp<T>(s: seq<T>, a: T, b: T)
    requires a != b
    requires forall x :: x in s ==> x == a || x == b
    ensures Occurrences(s, a) + Occurrences(s, b) == |s|
  {
    var labels := [a, b];
    assert forall x :: x in s ==> x in labels;
    CountsAddUp(s, labels);
    assert labels[1..] == [b] && [b][1..] == [];
    assert TotalOccurrences(s, [b]) == Occurrences(s, b) + TotalOccurrences(s, []);
  }

  lemma ThreeLabelsAddUp<T>(s: seq<T>, a: T, b: T, c: T)
    requires a != b && a != c && b != c
    requires forall x :: x in s ==> x == a || x == b || x == c
    ensures Occurrences(s, a) + Occurrences(s, b) + Occurrences(s, c) == |s|
  {
    var labels := [a, b, c];
    assert forall x :: x in s ==> x in labels;
    CountsAddUp(s, labels);
    assert labels[1..] == [b, c] && [b, c][1..] == [c] && [c][1..] == [];
    assert TotalOccurrences(s, [b, c]) == Occurrences(s, b) + TotalOccurrences(s, [c]);
    assert TotalOccurrences(s, [c]) == Occurrences(s, c) + TotalOccurrences(s, []);
  }

  /** Each place label is one of two, so their counts add up to the number of rows. */
  lemma LocationCountsAddUp(labels: seq<Location>)
    ensures Occurrences(labels, Indoor) + Occurrences(labels, Outdoor) == |labels|
  {
    forall x | x in labels ensures x == Indoor || x == Outdoor {
      match x
      case Indoor =>
      case Outdoor =>
    }
    TwoLabelsAddUp(labels, Indoor, Outdoor);
  }

  lemma FeltByCountsAddUp(labels: seq<FeltBy>)
    ensures Occurrences(labels, OnlyRespondent) + Occurrences(labels, Majority) + Occurrences(labels, Unspecified) == |labels|
  {
    forall x | x in labels ensures x == OnlyRespondent || x == Majority || x == Unspecified {
      match x
      case OnlyRespondent =>
      case Majority =>
      case Unspecified =>
    }
    ThreeLabelsAddUp(labels, OnlyRespondent, Majority, Unspecified);
  }

  lemma FlagCountsAddUp(flags: seq<bool>)
    ensures Occurrences(flags, true) + Occurrences(flags, false) == |flags|
  {
    assert forall x :: x in flags ==> x == true || x == false;
    TwoLabelsAddUp(flags, true, false);
  }

  lemma DamageCountsAddUp(labels: seq<Damage>)
    ensures Occurrences(labels, Reported) + Occurrences(labels, NotReported) + Occurrences(labels, Unknown) == |labels|
  {
    forall x | x in labels ensures x == Reported || x == NotReported || x == Unknown {
      match x
      case Reported =>
      case NotReported =>
      case Unknown =>
    }
    ThreeLabelsAddUp(labels, Reported, NotReported, Unknown);
  }

  /**
    Every row receives exactly one label in each column, so each column's counts add
    up to the number of rows in the window, over its fixed set of labels.
   */
  lemma CategoryCountsAddUp(columns: set<string>, table: Table)
    ensures Occurrences(LocationColumnOf(table), Indoor) + Occurrences(LocationColumnOf(table), Outdoor) == |table|
    ensures Occurrences(FeltByColumnOf(table), OnlyRespondent) + Occurrences(FeltByColumnOf(table), Majority)
      + Occurrences(FeltByColumnOf(table), Unspecified) == |table|
    ensures Occurrences(FearColumnOf(table), true) + Occurrences(FearColumnOf(table), false) == |table|
    ensures Occurrences(MovementColumnOf(columns, table), true) + Occurrences(MovementColumnOf(columns, table), false) == |table|
    ensures Occurrences(DamageColumnOf(table), Reported) + Occurrences(DamageColumnOf(table), NotReported)
      + Occurrences(DamageColumnOf(table), Unknown) == |table|
  {
    LocationCountsAddUp(LocationColumnOf(table));
    FeltByCountsAddUp(FeltByColumnOf(table));
    FlagCountsAddUp(FearColumnOf(table));
    FlagCountsAddUp(MovementColumnOf(columns, table));
    DamageCountsAddUp(DamageColumnOf(table));
  }

  /** The rows flagged as showing movement. */
  function MovedRows(columns: set<string>, table: Table): set<int> {
    set k | 0 <= k < |table| && Moved(table[k], PresentMovementColumns(columns))
  }

  lemma MovedRowsCount(columns: set<string>, table: Table)
    ensures Occurrences(MovementColumnOf(columns, table), true) == |MovedRows(columns, table)|
  {
    var flags := MovementColumnOf(columns, table);
    OccurrencesAreIndices(flags, true);
    assert IndicesOf(flags, true) == MovedRows(columns, table);
  }

  /** A row with an answer in a present movement column is flagged as showing movement. */
  lemma ObservedRowsAreMoved(columns: set<string>, table: Table, col: string)
    requires col in PresentMovementColumns(columns)
    ensures ObservedRows(table, col) <= MovedRows(columns, table)
  {
    PresentMovementColumnsIff(columns, col);
    forall k | k in ObservedRows(table, col) ensures k in MovedRows(columns, table) {
      MovedIff(table[k], columns);
    }
  }

  /** No movement column counts more rows than the aggregated flag marks as showing movement. */
  lemma ObservedAtMostMoved(columns: set<string>, table: Table, col: string)
    requires col in PresentMovementColumns(columns)
    ensures |ObservedRows(table, col)| <= Occurrences(MovementColumnOf(columns, table), true)
  {
    MovedRowsCount(columns, table);
    ObservedRowsAreMoved(columns, table, col);
    SubsetCardinality(ObservedRows(table, col), MovedRows(columns, table));
  }

  /** A row flagged as showing movement has an answer in some present movement column. */
  lemma MovedRowHasAnswer(columns: set<string>, table: Table, k: int)
    requires k in MovedRows(columns, table)
    ensures exists col :: col in PresentMovementColumns(columns) && k in ObservedRows(table, col)
  {
    MovedIff(table[k], columns);
    var col :| col in MovementColumns && col in columns && Observed(CellAt(table[k], col));
    PresentMovementColumnsIff(columns, col);
    assert k in ObservedRows(table, col);
  }

  /** No row is flagged as showing movement exactly when every present movement column counts zero rows. */
  lemma NoMovementIffNoAnswers(columns: set<string>, table: Table)
    ensures Occurrences(MovementColumnOf(columns, table), true) == 0 <==>
      forall col :: col in PresentMovementColumns(columns) ==> |ObservedRows(table, col)| == 0
  {
    MovedRowsCount(columns, table);
    if |MovedRows(columns, table)| != 0 {
      var k :| k in MovedRows(columns, table);
      MovedRowHasAnswer(columns, table, k);
    } else {
      forall col | col in PresentMovementColumns(columns) ensures |ObservedRows(table, col)| == 0 {
        ObservedAtMostMoved(columns, table, col);
      }
    }
  }

  lemma SubsetCardinality(a: set<int>, b: set<int>)
    requires a <= b
    ensures |a| <= |b|
  {
    assert b == a + (b - a);
  }

}
