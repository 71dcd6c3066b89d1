/**
  The analysis as it runs: the survey table is a data frame whose rows are dropped
  in place by the two `dropna` calls, copied by the month and window selections,
  and then extended in place by one label column per section, each section counting
  the labels it has just assigned.
 */
module Survey {
  import opened Optional
  import opened Cells
  import opened Labels
  import opened Sequences
  import opened Rows
  import opened Tally

  /** The raw cells of the rows, one map per row; the label columns are not among them. */
  function CellsOf(rows: seq<Row>): Table {
    seq(|rows|, i requires 0 <= i < |rows| => rows[i].cells)
  }

  /** A data frame: the columns it has and its rows, in order. */
  class Frame {
    var columns: set<string>
    var rows: seq<Row>

    constructor (columns: set<string>, rows: seq<Row>)
      ensures this.columns == columns && this.rows == rows
    {
      this.columns := columns;
      this.rows := rows;
    }

    /** `dropna(subset=[time], inplace=True)`: rows whose time did not parse are removed. */
    method DropMissingTime()
      modifies this
      ensures columns == old(columns)
      ensures rows == Where(old(rows), HasTime)
    {
      rows := Where(rows, HasTime);
    }

    /** `dropna(subset=[lat, lon], inplace=True)`: rows lacking either coordinate are removed. */
    method DropMissingCoordinates()
      modifies this
      ensures columns == old(columns)
      ensures rows == Where(old(rows), HasCoordinates)
    {
      rows := Where(rows, HasCoordinates);
    }

    /** `df[mask].copy()`: a new frame with the same columns and the rows the mask keeps. */
    method Select(keep: Row -> bool) returns (copy: Frame)
      ensures fresh(copy)
      ensures copy.columns == columns && copy.rows == Where(rows, keep)
    {
      copy := new Frame(columns, Where(rows, keep));
    }

    /**
      The place-of-observation section: assigns 'Mist_Pozorovani_Kat' when the place
      column exists and counts its labels, which are those of the raw cells.
     */
    method LocationSection() returns (counts: Option<multiset<Location>>)
      modifies this
      ensures columns == old(columns)
      ensures rows == AssignLocation(old(columns), old(rows))
      ensures CellsOf(rows) == CellsOf(old(rows))
      ensures CountsOf(counts, InBuildingColumn in columns, LocationColumnOf(CellsOf(rows)))
      ensures counts.Some? ==> |counts.value| == |rows|
    {
      var derived := InBuildingColumn in columns;
      if derived {
        rows := AssignLocation(columns, rows);
      } else {
        assert rows == AssignLocation(columns, rows);
      }
      ghost var labels := LocationColumnOf(CellsOf(rows));
      counts := CountColumn(derived, rows, (d: Derived) => d.location, labels);
    }

    /** The felt-by section: assigns 'Pocit_Kategorie_Text' when its column exists and counts it. */
    method FeltBySection() returns (counts: Option<multiset<FeltBy>>)
      modifies this
      ensures columns == old(columns)
      ensures rows == AssignFeltBy(old(columns), old(rows))
      ensures CellsOf(rows) == CellsOf(old(rows))
      ensures CountsOf(counts, FeltByColumn in columns, FeltByColumnOf(CellsOf(rows)))
      ensures counts.Some? ==> |counts.value| == |rows|
    {
      var derived := FeltByColumn in columns;
      if derived {
        rows := AssignFeltBy(columns, rows);
      } else {
        assert rows == AssignFeltBy(columns, rows);
      }
      ghost var labels := FeltByColumnOf(CellsOf(rows));
      counts := CountColumn(derived, rows, (d: Derived) => d.feltBy, labels);
    }

    /** The tremor section: assigns 'Intenzita_Kat' when its column exists and counts it. */
    method TremorSection() returns (counts: Option<multiset<string>>)
      modifies this
      ensures columns == old(columns)
      ensures rows == AssignTremor(old(columns), old(rows))
      ensures CellsOf(rows) == CellsOf(old(rows))
      ensures CountsOf(counts, TremorColumn in columns, TremorColumnOf(CellsOf(rows)))
      ensures counts.Some? ==> |counts.value| == |rows|
    {
      var derived := TremorColumn in columns;
      if derived {
        rows := AssignTremor(columns, rows);
      } else {
        assert rows == AssignTremor(columns, rows);
      }
      ghost var labels := TremorColumnOf(CellsOf(rows));
      counts := CountColumn(derived, rows, (d: Derived) => d.tremor, labels);
    }

    /** The fear section: assigns 'Strach_Pocit_Kat' when its column exists and counts it. */
    method FearSection() returns (counts: Option<multiset<bool>>)
      modifies this
      ensures columns == old(columns)
      ensures rows == AssignFear(old(columns), old(rows))
      ensures CellsOf(rows) == CellsOf(old(rows))
      ensures CountsOf(counts, FearColumn in columns, FearColumnOf(CellsOf(rows)))
      ensures counts.Some? ==> |counts.value| == |rows|
    {
      var derived := FearColumn in columns;
      if derived {
        rows := AssignFear(columns, rows);
      } else {
        assert rows == AssignFear(columns, rows);
      }
      ghost var labels := FearColumnOf(CellsOf(rows));
      counts := CountColumn(derived, rows, (d: Derived) => d.fear, labels);
    }

    /**
      The object-movement section: when some movement column exists, assigns
      'Pohyb_Predmetu_Agregovany' and counts it, then counts, for each movement column
      present in list order, the rows holding an answer in it.
     */
    method MovementSection() returns (counts: Option<multiset<bool>>, observed: seq<nat>)
      modifies this
      ensures columns == old(columns)
      ensures rows == AssignMovement(old(columns), old(rows))
      ensures CellsOf(rows) == CellsOf(old(rows))
      ensures CountsOf(counts, PresentMovementColumns(columns) != [], MovementColumnOf(columns, CellsOf(rows)))
      ensures counts.Some? ==> |counts.value| == |rows|
      ensures |observed| == |PresentMovementColumns(columns)|
      ensures forall j :: 0 <= j < |observed| ==>
        observed[j] == |ObservedRows(CellsOf(rows), PresentMovementColumns(columns)[j])|
    {
      var present := PresentMovementColumns(columns);
      var derived := present != [];
      observed := [];
      if derived {
        rows := AssignMovement(columns, rows);
      } else {
        assert rows == AssignMovement(columns, rows);
      }
      ghost var labels := MovementColumnOf(columns, CellsOf(rows));
      counts := CountColumn(derived, rows, (d: Derived) => d.movement, labels);
      if derived {
        observed := ObservedCounts(CellsOf(rows), present);
      }
    }

    /** The damage section: assigns 'Poskozeni_Obecne_Kat' when its column exists and counts it. */
    method DamageSection() returns (counts: Option<multiset<Damage>>)
      modifies this
      ensures columns == old(columns)
      ensures rows == AssignDamage(old(columns), old(rows))
      ensures CellsOf(rows) == CellsOf(old(rows))
      ensures CountsOf(counts, DamageColumn in columns, DamageColumnOf(CellsOf(rows)))
      ensures counts.Some? ==> |counts.value| == |rows|
    {
      var derived := DamageColumn in columns;
      if derived {
        rows := AssignDamage(columns, rows);
      } else {
        assert rows == AssignDamage(columns, rows);
      }
      ghost var labels := DamageColumnOf(CellsOf(rows));
      counts := CountColumn(derived, rows, (d: Derived) => d.damage, labels);
    }
  }

  /** How the analysis ends: at one of its two early exits, or with the event table and its counts. */
  datatype Outcome =
    | NoRecordsInMonth
    | NoRecordsInWindow
    | Analysed(rows: seq<Row>, report: Report)

  /**
    The whole analysis on the loaded table, whose rows carry no labels yet: clean,
    select April 2025 (stopping when it is empty), select the event window (stopping
    when it is empty), then run the six sections in order on the event table.
   */
  method Analyse(columns: set<string>, loaded: seq<Row>) returns (outcome: Outcome)
    requires forall r :: r in loaded ==> r.derived == NotDerived
    ensures outcome == NoRecordsInMonth <==> AprilRows(loaded) == []
    ensures outcome == NoRecordsInWindow <==> AprilRows(loaded) != [] && EventRows(loaded) == []
    ensures outcome.Analysed? ==> outcome.rows == DeriveAll(columns, EventRows(loaded))
    ensures outcome.Analysed? ==> |outcome.rows| == |EventRows(loaded)| && forall i :: 0 <= i < |outcome.rows| ==>
      outcome.rows[i] == EventRows(loaded)[i].(derived := LabelsOf(columns, EventRows(loaded)[i].cells))
    ensures outcome.Analysed? ==> ReportOf(columns, CellsOf(EventRows(loaded)), outcome.report)
  {
    var df := new Frame(columns, loaded);
    df.DropMissingTime();
    df.DropMissingCoordinates();
    var april := df.Select(InTargetMonth);
    if |april.rows| == 0 {
      return NoRecordsInMonth;
    }
    var event := april.Select(InEventWindow);
    if |event.rows| == 0 {
      return NoRecordsInWindow;
    }
    ghost var table := CellsOf(event.rows);
    var location := event.LocationSection();
    var feltBy := event.FeltBySection();
    var tremor := event.TremorSection();
    var fear := event.FearSection();
    var movement, observed := event.MovementSection();
    var damage := event.DamageSection();
    var report := Report(location, feltBy, tremor, fear, movement, observed, damage);
    EventRowsLabelled(columns, loaded);
    outcome := Analysed(event.rows, report);
  }

  /**
    The counts the analysis reports for an event table with the raw cells `table`:
    each label column's counts exist iff its source column does and count the labels
    of the raw cells; one observed count per movement column present.
   */
  ghost predicate ReportOf(columns: set<string>, table: Table, report: Report) {
    var present := PresentMovementColumns(columns);
    && CountsOf(report.location, InBuildingColumn in columns, LocationColumnOf(table))
    && CountsOf(report.feltBy, FeltByColumn in columns, FeltByColumnOf(table))
    && CountsOf(report.tremor, TremorColumn in columns, TremorColumnOf(table))
    && CountsOf(report.fear, FearColumn in columns, FearColumnOf(table))
    && CountsOf(report.movement, present != [], MovementColumnOf(columns, table))
    && |report.observed| == |present|
    && (forall j :: 0 <= j < |present| ==> report.observed[j] == |ObservedRows(table, present[j])|)
    && CountsOf(report.damage, DamageColumn in columns, DamageColumnOf(table))
  }

}
