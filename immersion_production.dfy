/**
 * The Production grade page of an immersion file (`ImmersionProduction.jsx`):
 * fourteen written categories worth 175 points but rated out of 185, a
 * coarse performance scale scanned in descending order, and student rows
 * replaced copy-on-write when a grade or the performance changes.
 *
 * The page hands each input's handler the row's position among the
 * displayed rows and the handler uses it as a position in all rows; the
 * sheet below models both that edit and the edit of the displayed row.
 */
module ImmersionProduction {
  import opened Wrappers
  import opened JsValues
  import opened JsObject
  import opened GradeSheet

  /** `writtenMaxScores`. */
  const MaxScores: ScoreTable := [
    ("WI", 10), ("CO", 10), ("5S", 5), ("BO", 10), ("CBO", 5), ("SDG", 5), ("OHSA", 20), ("WE", 10),
    ("UJC", 15), ("ISO", 10), ("PO", 15), ("HR", 10), ("SUPP", 40), ("DS", 10)]

  /** The divisor of the written rating. */
  const Denominator: nat := 185

  /** `PERFORMANCE_SCALE`, in descending order of limit. */
  const PerformanceScale: Scale := [(5.0, 100), (4.0, 95), (3.0, 85), (2.0, 79), (1.0, 75), (0.0, 60)]

  // ================================================================ tables

  /** The running sums of the maxima, in table order. */
  const RunningMaxima: seq<nat> := [0, 10, 20, 25, 35, 40, 45, 65, 75, 90, 100, 115, 125, 165, 175]

  lemma {:induction false} MaximaPrefix(k: nat)
    requires k <= |MaxScores|
    ensures SumOfMaxima(MaxScores[..k]) == RunningMaxima[k]
    decreases k
  {
    if k > 0 {
      MaximaPrefix(k - 1);
      assert MaxScores[..k][..k - 1] == MaxScores[..k - 1];
    }
  }

  /** The maxima add up to 175, ten short of the denominator 185. */
  lemma MaxScoresSum()
    ensures SumOfMaxima(MaxScores) == 175 < Denominator
  {
    MaximaPrefix(|MaxScores|);
    assert MaxScores[..|MaxScores|] == MaxScores;
  }

  lemma {:induction false} ScaleFallsFrom(k: nat)
    requires k < |PerformanceScale|
    ensures FallsFrom(PerformanceScale, |PerformanceScale| - 1 - k)
    decreases k
  {
    if k > 0 {
      ScaleFallsFrom(k - 1);
    }
  }

  /** The scale's limits strictly fall, a higher limit never carries a lower grade, and no grade is below 60. */
  lemma ScaleFacts()
    ensures StrictlyDescending(PerformanceScale) && GradesFollowLimits(PerformanceScale)
  {
    ScaleFallsFrom(|PerformanceScale| - 1);
    FallingScale(PerformanceScale);
  }

  // ================================================================ performance grade

  /**
   * `lookupPerformanceGrade`: 0 for a value that is not a number, otherwise
   * the grade of the first entry, scanning downwards, whose limit the score
   * reaches; 60 when it reaches none.
   */
  method LookupPerformanceGrade(value: Value) returns (grade: int)
    ensures grade == PerformanceGrade(PerformanceScale, value)
  {
    var score := ParseFloat(value);
    if score.None? {
      return 0;
    }
    ScaleFacts();
    grade := ScanDescending(PerformanceScale, score.value);
  }

  /** A higher appraisal never gets a lower grade. */
  lemma LookupMonotone(v: Value, w: Value)
    requires ParseFloat(v).Some? && ParseFloat(w).Some? && ParseFloat(v).value <= ParseFloat(w).value
    ensures PerformanceGrade(PerformanceScale, v) <= PerformanceGrade(PerformanceScale, w)
  {
    ScaleFacts();
    ScaleGradeMonotone(PerformanceScale, ParseFloat(v).value, ParseFloat(w).value);
  }

  /** The scale gives one of its six grades; below 1 it gives 60, from 4 on at least 95. */
  lemma ScaleGradeValues(score: real)
    ensures ScaleGrade(PerformanceScale, score) in {60, 75, 79, 85, 95, 100}
    ensures score < 1.0 ==> ScaleGrade(PerformanceScale, score) == 60
    ensures 4.0 <= score ==> 95 <= ScaleGrade(PerformanceScale, score)
  {
    ScaleFacts();
    var k := BestIndex(PerformanceScale, score);
    if score < 0.0 {
      DescendingScanFindsBest(PerformanceScale, score, |PerformanceScale|);
    } else if score < 1.0 {
      DescendingScanFindsBest(PerformanceScale, score, 5);
    } else if 5.0 <= score {
      DescendingScanFindsBest(PerformanceScale, score, 0);
    } else if 4.0 <= score {
      DescendingScanFindsBest(PerformanceScale, score, 1);
    }
    assert k == -1 || k == 0 || k == 1 || k == 2 || k == 3 || k == 4 || k == 5;
  }

  // ================================================================ results

  /** `computeResults(grades, performanceValue)`: every entry of `grades` counts. */
  function ComputeResults(grades: Obj<Value>, performance: Value): Results {
    Assemble(SumEntries(grades), Denominator, PerformanceGrade(PerformanceScale, performance))
  }

  /** The rating of a full written sheet, 175 of 185. */
  lemma FullSheetRating()
    ensures WrittenRating(175, Denominator) == 97.30
  {
    var x := 175.0 / 185.0 * 50.0 + 50.0;
    assert 9730.0 <= x * 100.0 + 0.5 < 9731.0;
  }

  /**
   * With every grade within its maximum, the written total lies in [0, 175],
   * the written rating in [50, 97.30] (a full sheet never rates 100), and the
   * performance grade is 0 (no number) or one of the scale's six grades.
   */
  lemma ComputeResultsBounds(grades: Obj<Value>, performance: Value)
    requires GradesInRange(MaxScores, grades)
    ensures 0 <= ComputeResults(grades, performance).writtenTotal <= 175
    ensures 50.0 <= ComputeResults(grades, performance).writtenRating <= 97.30
    ensures ComputeResults(grades, performance).performanceRating in {0, 60, 75, 79, 85, 95, 100}
  {
    MaxScoresSum();
    SumEntriesBounded(MaxScores, grades);
    var t := SumEntries(grades);
    WrittenRatingRange(t, Denominator);
    DivideMonotone(t as real, 175.0, Denominator as real);
    FullSheetRating();
    ToFixed2Monotone(t as real / 185.0 * 50.0 + 50.0, 175.0 / 185.0 * 50.0 + 50.0);
    if ParseFloat(performance).Some? {
      ScaleGradeValues(ParseFloat(performance).value);
    }
  }

  /**
   * The performance appraisal decides the remark on its own at both ends:
   * below 1 (or not a number) the row is INCOMPLETE, from 4 up it is
   * COMPLETE, whatever the written scores.
   */
  lemma RemarkThresholds(grades: Obj<Value>, performance: Value)
    requires GradesInRange(MaxScores, grades)
    ensures ParseFloat(performance).None? ==> ComputeResults(grades, performance).remarks == Incomplete
    ensures ParseFloat(performance).Some? && ParseFloat(performance).value < 1.0
      ==> ComputeResults(grades, performance).remarks == Incomplete
    ensures ParseFloat(performance).Some? && 4.0 <= ParseFloat(performance).value
      ==> ComputeResults(grades, performance).remarks == Complete
  {
    ComputeResultsBounds(grades, performance);
    var r := ComputeResults(grades, performance);
    if ParseFloat(performance).Some? {
      ScaleGradeValues(ParseFloat(performance).value);
    }
    RemarkByPerformance(r.writtenRating, r.performanceRating);
  }

  // ================================================================ rows

  /** The row `handleGradeChange` builds: a copy whose grades hold `value` under `field` when the guard accepts it. */
  function WithGrade(row: StudentRow, field: string, value: string): StudentRow {
    if GradeAccepted(MaxScores, field, value) then row.(grades := Set(row.grades, field, Text(value))) else row
  }

  /** The row `handlePerformanceChange` builds: a copy with `value` as its performance when the guard accepts it. */
  function WithPerformance(row: StudentRow, value: string): StudentRow {
    if PerformanceAccepted(value) then row.(performance := Text(value)) else row
  }

  /**
   * A grade edit keeps the row's own fields and performance, stores the value
   * under `field` exactly when the guard accepts it, keeps every grade of a
   * row in range within range, and repeating it changes nothing more.
   */
  lemma WithGradeSpec(row: StudentRow, field: string, value: string)
    ensures WithGrade(row, field, value).fields == row.fields
    ensures WithGrade(row, field, value).performance == row.performance
    ensures Get(WithGrade(row, field, value).grades, field)
      == if GradeAccepted(MaxScores, field, value) then Some(Text(value)) else Get(row.grades, field)
    ensures forall k :: k != field ==> Get(WithGrade(row, field, value).grades, k) == Get(row.grades, k)
    ensures field in Keys(MaxScores) && GradesInRange(MaxScores, row.grades)
      ==> GradesInRange(MaxScores, WithGrade(row, field, value).grades)
    ensures WithGrade(WithGrade(row, field, value), field, value) == WithGrade(row, field, value)
  {
    if GradeAccepted(MaxScores, field, value) {
      var g := Set(row.grades, field, Text(value));
      GetSet(row.grades, field, Text(value), field);
      forall k | k != field
        ensures Get(g, k) == Get(row.grades, k)
      {
        GetSet(row.grades, field, Text(value), k);
      }
      var i := Find(g, field);
      assert i < |g| && g[i] == (field, Text(value));
      assert Set(g, field, Text(value)) == g;
      if field in Keys(MaxScores) && GradesInRange(MaxScores, row.grades) {
        GradeEditKeepsRange(MaxScores, row.grades, field, value);
      }
    }
  }

  /**
   * A performance edit keeps the row's fields and grades, stores the value
   * exactly when the guard accepts it, and keeps a performance in range in
   * range.
   */
  lemma WithPerformanceSpec(row: StudentRow, value: string)
    ensures WithPerformance(row, value).fields == row.fields
    ensures WithPerformance(row, value).grades == row.grades
    ensures WithPerformance(row, value).performance
      == if PerformanceAccepted(value) then Text(value) else row.performance
    ensures PerformanceInRange(row.performance) ==> PerformanceInRange(WithPerformance(row, value).performance)
  {
    if PerformanceAccepted(value) && value != "" {
      var _ := AcceptedPerformanceValue(value);
    }
  }

  /** Replacing a row by one with the same fields keeps every row's fields. */
  lemma RowFieldsUpdate(rows: seq<StudentRow>, i: nat, row: StudentRow)
    requires i < |rows| && row.fields == rows[i].fields
    ensures RowFields(rows[i := row]) == RowFields(rows)
  {
    assert forall k :: 0 <= k < |rows| ==> RowFields(rows[i := row])[k] == RowFields(rows)[k];
  }

  /** The page's `rows` state and the path flags that choose which rows it shows. */
  class ProductionSheet {
    const flags: ViewFlags
    var rows: seq<StudentRow>

    /** The positions of `filteredRows` in `rows`; `None` when the filter throws. */
    function Shown(): Option<seq<nat>>
      reads this
    {
      KeptIndices(Departments(RowFields(rows)), flags)
    }

    /** The `useState` initialiser, given the file's rows and the page's path. */
    constructor (pathname: string, content: seq<Obj<Value>>)
      ensures flags == FlagsOf(pathname)
      ensures |rows| == |content|
      ensures forall i :: 0 <= i < |content| ==> rows[i] == NormalizeRow(MaxScores, content[i])
    {
      flags := FlagsOf(pathname);
      rows := seq(|content|, i requires 0 <= i < |content| => NormalizeRow(MaxScores, content[i]));
    }

    /**
     * `handleGradeChange(rowIndex, field, value)`: row `rowIndex` is replaced
     * by its grade-edited copy; no other row changes, nor which rows are shown.
     */
    method HandleGradeChange(rowIndex: nat, field: string, value: string)
      requires rowIndex < |rows|
      modifies this
      ensures rows == old(rows)[rowIndex := WithGrade(old(rows)[rowIndex], field, value)]
      ensures Shown() == old(Shown())
    {
      WithGradeSpec(rows[rowIndex], field, value);
      RowFieldsUpdate(rows, rowIndex, WithGrade(rows[rowIndex], field, value));
      GradeGuard(MaxScores, field, value);
      if !IsGradeText(value) {
        return;
      }
      var max := Get(MaxScores, field);
      var numeric := ParseIntText(value);
      if max.Some? && numeric.Some? && numeric.value > max.value {
        return;
      }
      var updatedRow := rows[rowIndex];
      var updatedGrades := Set(updatedRow.grades, field, Text(value));
      updatedRow := updatedRow.(grades := updatedGrades);
      rows := rows[rowIndex := updatedRow];
    }

    /**
     * `handlePerformanceChange(rowIndex, value)`: row `rowIndex` is replaced
     * by its performance-edited copy; no other row changes, nor which rows are shown.
     */
    method HandlePerformanceChange(rowIndex: nat, value: string)
      requires rowIndex < |rows|
      modifies this
      ensures rows == old(rows)[rowIndex := WithPerformance(old(rows)[rowIndex], value)]
      ensures Shown() == old(Shown())
    {
      WithPerformanceSpec(rows[rowIndex], value);
      RowFieldsUpdate(rows, rowIndex, WithPerformance(rows[rowIndex], value));
      if value == "" {
        rows := rows[rowIndex := rows[rowIndex].(performance := Text(value))];
        return;
      }
      var num := ParseFloatText(value);
      if num.Some? && 0.0 <= num.value <= 5.0 {
        if IsPerformanceText(value) {
          rows := rows[rowIndex := rows[rowIndex].(performance := Text(value))];
        }
      }
    }

    /**
     * Typing into the grade input of displayed row `j`, as the page is
     * written: the handler receives `j` and edits `rows[j]`, whichever row
     * that is.
     */
    method EditShownGradeAsWritten(j: nat, field: string, value: string)
      requires Shown().Some? && j < |Shown().value|
      modifies this
      ensures j < |old(rows)| && rows == old(rows)[j := WithGrade(old(rows)[j], field, value)]
    {
      KeptIndicesKeeps(Departments(RowFields(rows)), flags);
      assert j <= Shown().value[j] by {
        ShownPositionsAtLeast(Shown().value, j);
      }
      HandleGradeChange(j, field, value);
    }

    /**
     * Typing into the grade input of displayed row `j`: the row edited is
     * the one the filter took the displayed row from.
     */
    method EditShownGrade(j: nat, field: string, value: string)
      requires Shown().Some? && j < |Shown().value|
      modifies this
      ensures var i := old(Shown()).value[j];
        i < |old(rows)| && rows == old(rows)[i := WithGrade(old(rows)[i], field, value)]
      ensures Shown() == old(Shown())
    {
      KeptIndicesKeeps(Departments(RowFields(rows)), flags);
      HandleGradeChange(Shown().value[j], field, value);
    }

    /** Typing into the performance input of displayed row `j`: the row edited is the one displayed. */
    method EditShownPerformance(j: nat, value: string)
      requires Shown().Some? && j < |Shown().value|
      modifies this
      ensures var i := old(Shown()).value[j];
        i < |old(rows)| && rows == old(rows)[i := WithPerformance(old(rows)[i], value)]
      ensures Shown() == old(Shown())
    {
      KeptIndicesKeeps(Departments(RowFields(rows)), flags);
      HandlePerformanceChange(Shown().value[j], value);
    }
  }

  // ================================================================ the displayed-row index

  /** In an increasing list of positions the `j`-th is at least `j`. */
  lemma {:induction false} ShownPositionsAtLeast(ix: seq<nat>, j: nat)
    requires forall a, b :: 0 <= a < b < |ix| ==> ix[a] < ix[b]
    requires j < |ix|
    ensures j <= ix[j]
  {
    if j > 0 {
      ShownPositionsAtLeast(ix, j - 1);
    }
  }

  /** When every position below `|ix|` is kept, the `j`-th kept position is `j`. */
  lemma {:induction false} KeptPrefixPosition(ix: seq<nat>, j: nat)
    requires forall a, b :: 0 <= a < b < |ix| ==> ix[a] < ix[b]
    requires forall i :: 0 <= i < |ix| ==> i in ix
    requires j < |ix|
    ensures ix[j] == j
  {
    assert j in ix;
    var k :| 0 <= k < |ix| && ix[k] == j;
    if j > 0 {
      KeptPrefixPosition(ix, j - 1);
      assert j - 1 < k;
    }
  }

  /**
   * The displayed index names the right row for every displayed row exactly
   * when the shown rows are the first rows of the sheet; a hidden row before
   * a shown one makes the page edit the wrong row.
   */
  lemma ShownIndexIsPosition(depts: seq<Option<string>>, flags: ViewFlags)
    requires KeptIndices(depts, flags).Some?
    ensures var ix := KeptIndices(depts, flags).value;
      (forall j :: 0 <= j < |ix| ==> ix[j] == j)
      <==> (forall i :: 0 <= i < |ix| ==> i < |depts| && depts[i].Some? && Shown(depts[i].value, flags))
  {
    var ix := KeptIndices(depts, flags).value;
    KeptIndicesKeeps(depts, flags);
    if |ix| > 0 {
      ShownPositionsAtLeast(ix, |ix| - 1);
    }
    if forall i :: 0 <= i < |ix| ==> i < |depts| && depts[i].Some? && Shown(depts[i].value, flags) {
      forall j | 0 <= j < |ix|
        ensures ix[j] == j
      {
        KeptPrefixPosition(ix, j);
      }
    } else {
      var i :| 0 <= i < |ix| && !(i < |depts| && depts[i].Some? && Shown(depts[i].value, flags));
      ShownPositionsAtLeast(ix, i);
      assert ix[i] != i by {
        assert i !in ix;
      }
    }
  }

  /** A hidden IT row before a shown PROD row. */
  const ItRow: StudentRow := StudentRow([("DEPARTMENT", Text("IT"))], [("WI", Text(""))], Text(""))
  const ProdRow: StudentRow := StudentRow([("DEPARTMENT", Text("PROD"))], [("WI", Text(""))], Text(""))

  /**
   * On the Production view of the sheet [IT row, PROD row] the only
   * displayed row is position 1, yet typing 7 into its WI input as the page
   * is written changes position 0, the hidden IT row, and leaves the
   * displayed row as it was.
   */
  lemma FilteredIndexEditsHiddenRow(flags: ViewFlags)
    requires !flags.support && flags.production
    ensures KeptIndices(Departments(RowFields([ItRow, ProdRow])), flags) == Some([1])
    ensures WithGrade(ItRow, "WI", "7") != ItRow
    ensures [ItRow, ProdRow][0 := WithGrade(ItRow, "WI", "7")][1] == ProdRow
  {
    SampleDepartments();
    SampleKept(flags);
    SampleEdit();
  }

  lemma SampleKept(flags: ViewFlags)
    requires !flags.support && flags.production
    ensures KeptIndices([Some("IT"), Some("PROD")], flags) == Some([1])
  {
    var depts := [Some("IT"), Some("PROD")];
    assert depts[..1] == [Some("IT")] && [Some("IT")][..0] == [];
    assert !Shown("IT", flags) && Shown("PROD", flags);
    assert KeptIndices([Some("IT")], flags) == Some([]);
    assert KeptIndices(depts[..1], flags) == Some([]);
    assert depts[|depts| - 1] == Some("PROD");
    var one: seq<nat> := [1];
    assert [] + one == one;
    assert KeptIndices(depts, flags) == Some(one);
  }

  lemma SampleEdit()
    ensures WithGrade(ItRow, "WI", "7").grades == [("WI", Text("7"))]
  {
    assert Get(MaxScores, "WI") == Some(10);
    assert DigitsValue("7", 0, 1) == 7;
  }

  lemma SampleDepartments()
    ensures Departments(RowFields([ItRow, ProdRow])) == [Some("IT"), Some("PROD")]
  {
    PlainDepartment("IT");
    PlainDepartment("PROD");
  }

  /** A department written in capitals with no surrounding white space is its own key. */
  lemma PlainDepartment(s: string)
    requires s != [] && !IsSpace(s[0]) && !IsSpace(s[|s| - 1])
    requires forall i :: 0 <= i < |s| ==> !('a' <= s[i] <= 'z')
    ensures Trim(Upper(s)) == s
  {
    assert Upper(s) == s;
  }
}
