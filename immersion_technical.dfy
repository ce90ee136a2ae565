/**
 * The Technical grade page of an immersion file (`ImmersionTechnical.jsx`):
 * fifteen written categories worth 201 points in all, a fine-grained
 * performance scale scanned in ascending order, student rows whose grades
 * and performance are edited in place, and arrow-key movement over the
 * grid of inputs.
 */
module ImmersionTechnical {
  import opened Wrappers
  import opened JsValues
  import opened JsObject
  import opened GradeSheet

  /** `writtenMaxScores`. */
  const MaxScores: ScoreTable := [
    ("WI", 10), ("CO", 10), ("5S", 5), ("BO", 10), ("CBO", 5), ("SDG", 5), ("OHSA", 20), ("WE", 10),
    ("UJC", 15), ("ISO", 10), ("PO", 15), ("HR", 10), ("APPDEV", 20), ("TECH", 46), ("DS", 10)]

  /** The divisor of the written rating. */
  const Denominator: nat := 201

  /** `PERFORMANCE_SCALE`, in ascending order of limit. */
  const PerformanceScale: Scale := [
    (0.0, 60), (1.0, 75), (1.2, 75), (1.4, 75), (1.6, 76), (1.8, 77), (1.9, 78), (2.0, 79),
    (2.2, 80), (2.4, 81), (2.6, 82), (2.8, 83), (2.9, 84), (3.0, 85), (3.2, 86), (3.4, 87),
    (3.6, 88), (3.8, 89), (4.0, 95), (4.2, 96), (4.4, 97), (4.6, 98), (4.8, 99), (5.0, 100)]

  /** `totalScoreFields`: the categories the written total adds up. */
  const TotalScoreFields: seq<string> :=
    ["WI", "CO", "5S", "BO", "CBO", "SDG", "OHSA", "WE", "UJC", "ISO", "PO", "HR", "APPDEV", "TECH", "DS"]

  /** Number of input columns: the performance column, then one per category. */
  const TotalCols: nat := 1 + |MaxScores|

  // ================================================================ tables

  /** The running sums of the maxima, in table order. */
  const RunningMaxima: seq<nat> := [0, 10, 20, 25, 35, 40, 45, 65, 75, 90, 100, 115, 125, 145, 191, 201]

  lemma {:induction false} MaximaPrefix(k: nat)
    requires k <= |MaxScores|
    ensures SumOfMaxima(MaxScores[..k]) == RunningMaxima[k]
    decreases k
  {
    if k > 0 {
      MaximaPrefix(k - 1);
      assert MaxScores[..k][..k - 1] == MaxScores[..k - 1];
    }
  }

  /**
   * The table names fifteen distinct categories, their maxima add up to the
   * denominator 201 (a full sheet rates 100), and the summed fields are
   * exactly the table's categories in the table's order.
   */
  lemma MaxScoresFacts()
    ensures UniqueKeys(MaxScores)
    ensures SumOfMaxima(MaxScores) == Denominator
    ensures TotalScoreFields == Keys(MaxScores)
  {
    MaxScoresUnique();
    MaximaPrefix(|MaxScores|);
    assert MaxScores[..|MaxScores|] == MaxScores;
  }

  lemma MaxScoresUnique()
    ensures UniqueKeys(MaxScores)
  {
  }

  lemma {:induction false} ScaleRisesFrom(k: nat)
    requires k < |PerformanceScale|
    ensures RisesFrom(PerformanceScale, |PerformanceScale| - 1 - k)
    decreases k
  {
    if k > 0 {
      ScaleRisesFrom(k - 1);
    }
  }

  /** The scale's limits strictly rise, its grades never fall, and no grade is below 60. */
  lemma ScaleFacts()
    ensures StrictlyAscending(PerformanceScale) && GradesFollowLimits(PerformanceScale)
  {
    ScaleRisesFrom(|PerformanceScale| - 1);
    RisingScale(PerformanceScale);
  }

  lemma ScaleAscends()
    ensures StrictlyAscending(PerformanceScale)
  {
    ScaleFacts();
  }

  // ================================================================ performance grade

  /**
   * `lookupPerformanceGrade`: 0 for a value that is not a number, otherwise
   * the grade of the last entry, scanning upwards, whose limit the score
   * reaches; 60 below the first limit.
   */
  method LookupPerformanceGrade(value: Value) returns (grade: int)
    ensures grade == PerformanceGrade(PerformanceScale, value)
  {
    var score := ParseFloat(value);
    if score.None? {
      return 0;
    }
    ScaleAscends();
    grade := ScanAscending(PerformanceScale, score.value);
  }

  /** A higher appraisal never gets a lower grade. */
  lemma LookupMonotone(v: Value, w: Value)
    requires ParseFloat(v).Some? && ParseFloat(w).Some? && ParseFloat(v).value <= ParseFloat(w).value
    ensures PerformanceGrade(PerformanceScale, v) <= PerformanceGrade(PerformanceScale, w)
  {
    ScaleFacts();
    ScaleGradeMonotone(PerformanceScale, ParseFloat(v).value, ParseFloat(w).value);
  }

  /** Below the second limit the scan gives the default 60. */
  lemma ScaleGradeBelowOne(score: real)
    requires score < 1.0
    ensures ScaleGrade(PerformanceScale, score) == 60
  {
    ScaleFacts();
    if score < 0.0 {
      AscendingScanFindsBest(PerformanceScale, score, 0);
    } else {
      AscendingScanFindsBest(PerformanceScale, score, 1);
    }
  }

  /** From 3.2 on the scan gives at least 86, the first grade that completes on its own. */
  lemma ScaleGradeFrom32(score: real)
    requires 3.2 <= score
    ensures 86 <= ScaleGrade(PerformanceScale, score)
  {
    ScaleFacts();
    assert PerformanceScale[14] == (3.2, 86) && PerformanceScale[15].0 == 3.4;
    AscendingScanFindsBest(PerformanceScale, 3.2, 15);
    ScaleGradeMonotone(PerformanceScale, 3.2, score);
  }

  /** Every score gets a grade between 60 and 100, and from 5 on exactly 100. */
  lemma ScaleGradeRange(score: real)
    ensures 60 <= ScaleGrade(PerformanceScale, score) <= 100
    ensures 5.0 <= score ==> ScaleGrade(PerformanceScale, score) == 100
  {
    ScaleFacts();
    var n := |PerformanceScale|;
    ScaleGradeBounds(PerformanceScale, score, n - 1);
    if 5.0 <= score {
      AscendingScanFindsBest(PerformanceScale, score, n);
    }
  }

  // ================================================================ results

  /** `computeResults(grades, performanceValue)`. */
  function ComputeResults(grades: Obj<Value>, performance: Value): Results {
    Assemble(SumFields(TotalScoreFields, grades), Denominator, PerformanceGrade(PerformanceScale, performance))
  }

  /**
   * With every grade within its maximum, the written total is the sum of all
   * the row's grades and lies in [0, 201], the written rating in [50, 100],
   * and the performance grade is 0 (no number) or in [60, 100].
   */
  lemma ComputeResultsBounds(grades: Obj<Value>, performance: Value)
    requires GradesInRange(MaxScores, grades)
    ensures ComputeResults(grades, performance).writtenTotal == SumEntries(grades)
    ensures 0 <= ComputeResults(grades, performance).writtenTotal <= 201
    ensures 50.0 <= ComputeResults(grades, performance).writtenRating <= 100.0
    ensures ComputeResults(grades, performance).performanceRating == 0
      || 60 <= ComputeResults(grades, performance).performanceRating <= 100
  {
    MaxScoresFacts();
    assert UniqueKeys(grades) by {
      forall i, j | 0 <= i < j < |grades|
        ensures grades[i].0 != grades[j].0
      {
        assert grades[i].0 == Keys(grades)[i] == MaxScores[i].0;
        assert grades[j].0 == Keys(grades)[j] == MaxScores[j].0;
      }
    }
    SumFieldsOfKeys(grades);
    SumEntriesBounded(MaxScores, grades);
    WrittenRatingRange(SumEntries(grades), Denominator);
    if ParseFloat(performance).Some? {
      ScaleGradeRange(ParseFloat(performance).value);
    }
  }

  /**
   * The performance appraisal decides the remark on its own at both ends:
   * below 1 (or not a number) the row is INCOMPLETE, from 3.2 up it is
   * COMPLETE, whatever the written scores.
   */
  lemma RemarkThresholds(grades: Obj<Value>, performance: Value)
    requires GradesInRange(MaxScores, grades)
    ensures ParseFloat(performance).None? ==> ComputeResults(grades, performance).remarks == Incomplete
    ensures ParseFloat(performance).Some? && ParseFloat(performance).value < 1.0
      ==> ComputeResults(grades, performance).remarks == Incomplete
    ensures ParseFloat(performance).Some? && 3.2 <= ParseFloat(performance).value
      ==> ComputeResults(grades, performance).remarks == Complete
  {
    ComputeResultsBounds(grades, performance);
    var r := ComputeResults(grades, performance);
    if ParseFloat(performance).Some? {
      var x := ParseFloat(performance).value;
      if x < 1.0 { ScaleGradeBelowOne(x); }
      if 3.2 <= x { ScaleGradeFrom32(x); }
    }
    RemarkByPerformance(r.writtenRating, r.performanceRating);
  }

  /** Full written marks and an appraisal of 5 give 100.00 everywhere. */
  lemma PerfectRow(grades: Obj<Value>, performance: Value)
    requires SumFields(TotalScoreFields, grades) == 201 && ParseFloat(performance) == Some(5.0)
    ensures ComputeResults(grades, performance) == Results(201, 100.0, 100, 100.0, Complete)
  {
    WrittenRatingRange(201, Denominator);
    ScaleGradeRange(5.0);
    ToFixed2Exact(10000);
  }

  /** An untouched row (no written score, no appraisal) rates 50.00 written, 15.00 final. */
  lemma BlankRow(grades: Obj<Value>)
    requires SumFields(TotalScoreFields, grades) == 0
    ensures ComputeResults(grades, Text("")) == Results(0, 50.0, 0, 15.0, Incomplete)
  {
    WrittenRatingRange(0, Denominator);
    assert ParseFloatText("") == None;
    ToFixed2Exact(1500);
  }

  /**
   * A row with every score 0 and appraisal "0": the appraisal parses, so the
   * scale gives 60 where a blank appraisal gives 0, and the final grade is
   * 57.00, still INCOMPLETE.
   */
  lemma ZeroAppraisalRow(grades: Obj<Value>)
    requires SumFields(TotalScoreFields, grades) == 0
    ensures ComputeResults(grades, Text("0")) == Results(0, 50.0, 60, 57.0, Incomplete)
  {
    WrittenRatingRange(0, Denominator);
    DigitsDecimal("0");
    ScaleGradeBelowOne(0.0);
    ToFixed2Exact(5700);
  }

  /** The grade guard rejects "11" for WI, whose maximum is 10, accepts "10", and rejects "1000" for every category. */
  lemma GradeGuardExamples(field: string)
    ensures !GradeAccepted(MaxScores, "WI", "11")
    ensures GradeAccepted(MaxScores, "WI", "10")
    ensures !GradeAccepted(MaxScores, field, "1000")
  {
    assert Get(MaxScores, "WI") == Some(10);
    assert DigitsValue("11", 0, 2) == 11;
    assert DigitsValue("10", 0, 2) == 10;
  }

  // ================================================================ rows

  /** A student row object, whose `grades` and `performance` the page overwrites in place. */
  class RowRecord {
    const fields: Obj<Value>
    var grades: Obj<Value>
    var performance: Value

    constructor (r: StudentRow)
      ensures fields == r.fields && grades == r.grades && performance == r.performance
    {
      fields := r.fields;
      grades := r.grades;
      performance := r.performance;
    }

    /** The row's present contents. */
    function Contents(): StudentRow
      reads this
    {
      StudentRow(fields, grades, performance)
    }
  }

  /** The page's `rows` state and the path flags that choose which rows it shows. */
  class TechnicalSheet {
    const flags: ViewFlags
    var rows: seq<RowRecord>

    /** No row object sits at two positions, so a lookup by identity is a lookup by position. */
    ghost predicate Valid()
      reads this
    {
      forall a, b :: 0 <= a < b < |rows| ==> rows[a] != rows[b]
    }

    function Contents(): (s: seq<StudentRow>)
      reads this, rows
      ensures |s| == |rows|
      ensures forall i :: 0 <= i < |rows| ==> s[i] == rows[i].Contents()
    {
      seq(|rows|, i reads this, rows requires 0 <= i < |rows| => rows[i].Contents())
    }

    /** The rows' fixed fields, in order. */
    function Fields(): (fs: seq<Obj<Value>>)
      reads this
      ensures |fs| == |rows|
      ensures forall i :: 0 <= i < |rows| ==> fs[i] == rows[i].fields
    {
      seq(|rows|, i reads this requires 0 <= i < |rows| => rows[i].fields)
    }

    /** The positions of `filteredRows` in `rows`; `None` when the filter throws. */
    function Shown(): Option<seq<nat>>
      reads this
    {
      KeptIndices(Departments(Fields()), flags)
    }

    /** The `useState` initialiser, given the file's rows and the page's path. */
    constructor (pathname: string, content: seq<Obj<Value>>)
      ensures Valid() && flags == FlagsOf(pathname)
      ensures |rows| == |content|
      ensures forall i :: 0 <= i < |content| ==> rows[i].Contents() == NormalizeRow(MaxScores, content[i])
      ensures forall i :: 0 <= i < |rows| ==> fresh(rows[i])
    {
      flags := FlagsOf(pathname);
      var rs: seq<RowRecord> := [];
      for i := 0 to |content|
        invariant |rs| == i
        invariant forall k :: 0 <= k < i ==> fresh(rs[k]) && rs[k].Contents() == NormalizeRow(MaxScores, content[k])
        invariant forall a, b :: 0 <= a < b < i ==> rs[a] != rs[b]
      {
        var r := new RowRecord(NormalizeRow(MaxScores, content[i]));
        rs := rs + [r];
      }
      rows := rs;
    }

    /**
     * `handleGradeChange(rowIndex, field, value)`: an accepted value is stored
     * under `field` in that row's grades; anything else changes nothing. An
     * edit of one of the table's categories keeps the row's grades in range.
     */
    method HandleGradeChange(rowIndex: nat, field: string, value: string)
      requires Valid() && rowIndex < |rows|
      modifies rows[rowIndex]
      ensures Valid() && rows == old(rows)
      ensures rows[rowIndex].grades
        == if GradeAccepted(MaxScores, field, value) then Set(old(rows[rowIndex].grades), field, Text(value))
           else old(rows[rowIndex].grades)
      ensures rows[rowIndex].performance == old(rows[rowIndex].performance)
      ensures forall i :: 0 <= i < |rows| && i != rowIndex ==> rows[i].Contents() == old(rows[i].Contents())
      ensures field in Keys(MaxScores) && old(GradesInRange(MaxScores, rows[rowIndex].grades))
        ==> GradesInRange(MaxScores, rows[rowIndex].grades)
    {
      GradeGuard(MaxScores, field, value);
      if !IsGradeText(value) {
        return;
      }
      var max := Get(MaxScores, field);
      var numeric := ParseIntText(value);
      if max.Some? && numeric.Some? && numeric.value > max.value {
        return;
      }
      var row := rows[rowIndex];
      if field in Keys(MaxScores) && GradesInRange(MaxScores, row.grades) {
        GradeEditKeepsRange(MaxScores, row.grades, field, value);
      }
      row.grades := Set(row.grades, field, Text(value));
    }

    /**
     * `handlePerformanceChange(rowIndex, value)`: "" or a number in [0, 5]
     * with at most two decimals is stored as the row's performance; anything
     * else changes nothing. The performance therefore stays "" or a number
     * in [0, 5].
     */
    method HandlePerformanceChange(rowIndex: nat, value: string)
      requires Valid() && rowIndex < |rows|
      modifies rows[rowIndex]
      ensures Valid() && rows == old(rows)
      ensures rows[rowIndex].performance
        == if PerformanceAccepted(value) then Text(value) else old(rows[rowIndex].performance)
      ensures rows[rowIndex].grades == old(rows[rowIndex].grades)
      ensures forall i :: 0 <= i < |rows| && i != rowIndex ==> rows[i].Contents() == old(rows[i].Contents())
      ensures old(PerformanceInRange(rows[rowIndex].performance)) ==> PerformanceInRange(rows[rowIndex].performance)
    {
      var row := rows[rowIndex];
      if value == "" {
        row.performance := Text(value);
        return;
      }
      var num := ParseFloatText(value);
      if num.Some? && 0.0 <= num.value <= 5.0 {
        if IsPerformanceText(value) {
          var _ := AcceptedPerformanceValue(value);
          row.performance := Text(value);
        }
      }
    }

    /**
     * Typing into the grade input of displayed row `j`: the page looks the
     * row up with `rows.findIndex(r => r === row)` and edits that position,
     * which is the position the filter took the displayed row from.
     */
    method EditShownGrade(j: nat, field: string, value: string)
      requires Valid() && Shown().Some? && j < |Shown().value|
      modifies rows
      ensures Valid() && rows == old(rows)
      ensures var i := old(Shown()).value[j];
        i < |rows|
        && rows[i].grades
           == (if GradeAccepted(MaxScores, field, value) then Set(old(rows[i].grades), field, Text(value))
               else old(rows[i].grades))
        && rows[i].performance == old(rows[i].performance)
        && forall k :: 0 <= k < |rows| && k != i ==> rows[k].Contents() == old(rows[k].Contents())
    {
      var ix := Shown().value;
      KeptIndicesKeeps(Departments(Fields()), flags);
      var rowIndex := IndexOf(rows, Pick(rows, ix)[j]);
      IndexOfPicked(rows, ix, j);
      HandleGradeChange(rowIndex, field, value);
    }

    /** Typing into the performance input of displayed row `j` edits the row the filter took it from. */
    method EditShownPerformance(j: nat, value: string)
      requires Valid() && Shown().Some? && j < |Shown().value|
      modifies rows
      ensures Valid() && rows == old(rows)
      ensures var i := old(Shown()).value[j];
        i < |rows|
        && rows[i].performance == (if PerformanceAccepted(value) then Text(value) else old(rows[i].performance))
        && rows[i].grades == old(rows[i].grades)
        && forall k :: 0 <= k < |rows| && k != i ==> rows[k].Contents() == old(rows[k].Contents())
    {
      var ix := Shown().value;
      KeptIndicesKeeps(Departments(Fields()), flags);
      var rowIndex := IndexOf(rows, Pick(rows, ix)[j]);
      IndexOfPicked(rows, ix, j);
      HandlePerformanceChange(rowIndex, value);
    }
  }

  // ================================================================ keyboard

  predicate IsArrow(key: string) {
    key in ["ArrowUp", "ArrowDown", "ArrowLeft", "ArrowRight"]
  }

  /**
   * `handleKeyDown(e, row, col)`: the input cell (data-row, data-col) an arrow
   * key moves to among `totalRows` displayed rows; `None` for any other key,
   * which the handler ignores. A move never leaves the grid and never goes
   * further than one cell.
   */
  function KeyTarget(key: string, row: int, col: int, totalRows: int): (t: Option<(int, int)>)
    ensures t.None? <==> !IsArrow(key)
    ensures t.Some? ==> (t.value.0 == row || t.value.1 == col)
    ensures t.Some? ==> row - 1 <= t.value.0 <= row + 1 && col - 1 <= t.value.1 <= col + 1
    ensures t.Some? && 0 <= row < totalRows && 0 <= col < TotalCols
      ==> 0 <= t.value.0 < totalRows && 0 <= t.value.1 < TotalCols
  {
    if !IsArrow(key) then None
    else if key == "ArrowUp" then Some((if row > 0 then row - 1 else row, col))
    else if key == "ArrowDown" then Some((if row < totalRows - 1 then row + 1 else row, col))
    else if key == "ArrowLeft" then Some((row, if col > 0 then col - 1 else col))
    else Some((row, if col < TotalCols - 1 then col + 1 else col))
  }

  /** Inside the grid, each arrow is undone by the opposite one; at an edge it stays put. */
  lemma ArrowsUndo(row: int, col: int, totalRows: int)
    requires 0 <= row < totalRows && 0 <= col < TotalCols
    ensures row > 0 ==> KeyTarget("ArrowUp", row, col, totalRows) == Some((row - 1, col))
    ensures row > 0 ==> KeyTarget("ArrowDown", row - 1, col, totalRows) == Some((row, col))
    ensures col > 0 ==> KeyTarget("ArrowLeft", row, col, totalRows) == Some((row, col - 1))
    ensures col > 0 ==> KeyTarget("ArrowRight", row, col - 1, totalRows) == Some((row, col))
    ensures row == 0 ==> KeyTarget("ArrowUp", row, col, totalRows) == Some((row, col))
    ensures row == totalRows - 1 ==> KeyTarget("ArrowDown", row, col, totalRows) == Some((row, col))
    ensures col == 0 ==> KeyTarget("ArrowLeft", row, col, totalRows) == Some((row, col))
    ensures col == TotalCols - 1 ==> KeyTarget("ArrowRight", row, col, totalRows) == Some((row, col))
  {
  }
}
