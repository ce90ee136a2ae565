/**
 * The rules the two work-immersion grade pages share: the shape of a
 * normalised student row, the two input guards, the stepped performance
 * scale, the written and final ratings with their remark, and the
 * department filter. Each page instantiates them with its own score table,
 * performance scale and denominator (modules ImmersionTechnical and
 * ImmersionProduction).
 */
module GradeSheet {
  import opened Wrappers
  import opened JsValues
  import opened JsObject

  /** `writtenMaxScores`: category code to maximum score, in declaration order. */
  type ScoreTable = Obj<nat>

  /** `o[k]` on a row, `undefined` when the key is absent. */
  function GetValue(o: Obj<Value>, k: string): Value {
    Get(o, k).GetOr(Missing)
  }

  function SumOfMaxima(table: ScoreTable): nat {
    if table == [] then 0 else SumOfMaxima(table[..|table| - 1]) + table[|table| - 1].1
  }

  // ================================================================ rows

  /** A student row after the `useState` initialiser: `{...row, grades, performance}`. */
  datatype StudentRow = StudentRow(fields: Obj<Value>, grades: Obj<Value>, performance: Value)

  /** `key.trim().toUpperCase()`. */
  function NormKey(k: string): string {
    Upper(Trim(k))
  }

  /** The `for (const key in row)` loop: every key normalised, a later key overwriting an earlier one. */
  function NormalizeKeys(row: Obj<Value>): Obj<Value> {
    if row == [] then []
    else Set(NormalizeKeys(row[..|row| - 1]), NormKey(row[|row| - 1].0), row[|row| - 1].1)
  }

  /** The value of the last pair of `row` whose key normalises to `k`. */
  function LastWith(row: Obj<Value>, k: string): Option<Value> {
    if row == [] then None
    else if NormKey(row[|row| - 1].0) == k then Some(row[|row| - 1].1)
    else LastWith(row[..|row| - 1], k)
  }

  /** Normalisation keeps, for each normalised key, the value of the last raw key that maps to it. */
  lemma {:induction false} NormalizeKeysGet(row: Obj<Value>, k: string)
    ensures Get(NormalizeKeys(row), k) == LastWith(row, k)
  {
    if row != [] {
      var init, last := row[..|row| - 1], row[|row| - 1];
      NormalizeKeysGet(init, k);
      GetSet(NormalizeKeys(init), NormKey(last.0), last.1, k);
    }
  }

  /** A normalised row has each key once. */
  lemma {:induction false} NormalizeKeysUnique(row: Obj<Value>)
    ensures UniqueKeys(NormalizeKeys(row))
  {
    if row != [] {
      var init, last := row[..|row| - 1], row[|row| - 1];
      NormalizeKeysUnique(init);
      KeysOfSet(NormalizeKeys(init), NormKey(last.0), last.1);
    }
  }

  /** The `reduce` over `Object.keys(writtenMaxScores)`: `acc[key] = row[key] || ""`. */
  function GradesFor(table: ScoreTable, n: Obj<Value>): Obj<Value> {
    seq(|table|, i requires 0 <= i < |table| => (table[i].0, Or(GetValue(n, table[i].0), Text(""))))
  }

  /** One row of the initialiser. */
  function NormalizeRow(table: ScoreTable, raw: Obj<Value>): StudentRow {
    var n := NormalizeKeys(raw);
    StudentRow(n, GradesFor(table, n), Or(GetValue(n, "PERFORMANCE APPRAISAL"), Text("")))
  }

  /** `grades` holds exactly the table's keys, in the table's order. */
  predicate Aligned(table: ScoreTable, grades: Obj<Value>) {
    Keys(grades) == Keys(table)
  }

  /**
   * A normalised row has a grade for exactly the table's categories, each the
   * row's last value under that (trimmed, upper-cased) header, or "" when that
   * value is missing or falsy; likewise for the performance appraisal.
   */
  lemma NormalizeRowSpec(table: ScoreTable, raw: Obj<Value>)
    ensures Aligned(table, NormalizeRow(table, raw).grades)
    ensures UniqueKeys(NormalizeRow(table, raw).fields)
    ensures forall i :: 0 <= i < |table| ==>
      NormalizeRow(table, raw).grades[i].1 == Or(LastWith(raw, table[i].0).GetOr(Missing), Text(""))
    ensures NormalizeRow(table, raw).performance
      == Or(LastWith(raw, "PERFORMANCE APPRAISAL").GetOr(Missing), Text(""))
  {
    NormalizeKeysUnique(raw);
    NormalizeKeysGet(raw, "PERFORMANCE APPRAISAL");
    forall i | 0 <= i < |table|
      ensures NormalizeRow(table, raw).grades[i].1 == Or(LastWith(raw, table[i].0).GetOr(Missing), Text(""))
    {
      NormalizeKeysGet(raw, table[i].0);
    }
  }

  // ================================================================ input guards

  /** `/^\d{0,3}$/`. */
  predicate IsGradeText(s: string) {
    |s| <= 3 && AllDigits(s)
  }

  /** `handleGradeChange`'s guard: the pattern, then `parseInt(value) > max` rejects. */
  predicate GradeAccepted(table: ScoreTable, field: string, value: string) {
    IsGradeText(value)
    && match Get(table, field)
       case None => true
       case Some(max) => DigitsValue(value, 0, |value|) <= max
  }

  /** `/^\d*\.?\d{0,2}$/`: digits, then optionally a point and at most two digits. */
  predicate IsPerformanceText(s: string) {
    var q := DigitEnd(s, 0);
    q == |s| || (s[q] == '.' && |s| - q <= 3 && DigitEnd(s, q + 1) == |s|)
  }

  /** `handlePerformanceChange`'s guard: "" always, otherwise a number in [0, 5] matching the pattern. */
  predicate PerformanceAccepted(value: string) {
    value == ""
    || (ParseFloatText(value).Some? && 0.0 <= ParseFloatText(value).value <= 5.0 && IsPerformanceText(value))
  }

  /** The invariant of a grade cell: the score it counts for lies in [0, max]. */
  predicate ScoreInRange(v: Value, max: nat) {
    0 <= IntOrZero(v) <= max
  }

  /** The invariant of a row's grades: the table's keys, each score within its maximum. */
  predicate GradesInRange(table: ScoreTable, grades: Obj<Value>) {
    Aligned(table, grades)
    && forall i :: 0 <= i < |grades| ==> ScoreInRange(grades[i].1, table[i].1)
  }

  /** The invariant of a performance cell: empty, or a number in [0, 5]. */
  predicate PerformanceInRange(v: Value) {
    v == Text("") || (ParseFloat(v).Some? && 0.0 <= ParseFloat(v).value <= 5.0)
  }

  /** An accepted grade text counts for the number it spells, which is within the field's maximum. */
  lemma AcceptedGradeScore(table: ScoreTable, field: string, value: string, max: nat)
    requires GradeAccepted(table, field, value)
    requires Get(table, field) == Some(max)
    ensures IntOrZero(Text(value)) == DigitsValue(value, 0, |value|)
    ensures ScoreInRange(Text(value), max)
  {
    if value != "" {
      ParseIntOfDigits(value);
    }
  }

  /** The guard as the handlers write it: the pattern, then a number above a known maximum rejects. */
  lemma GradeGuard(table: ScoreTable, field: string, value: string)
    ensures GradeAccepted(table, field, value)
      <==> IsGradeText(value)
           && !(Get(table, field).Some? && ParseIntText(value).Some? && ParseIntText(value).value > Get(table, field).value)
  {
    if IsGradeText(value) && value != "" {
      ParseIntOfDigits(value);
    }
  }

  /** `handleGradeChange` never accepts more than three digits, so never a number above 999. */
  lemma AcceptedGradeAtMost999(table: ScoreTable, field: string, value: string)
    requires GradeAccepted(table, field, value)
    ensures DigitsValue(value, 0, |value|) <= 999
  {
    DigitsValueBound(value, 0, |value|);
    assert Pow10(|value|) <= 1000 by {
      assert Pow10(0) == 1 && Pow10(1) == 10 && Pow10(2) == 100 && Pow10(3) == 1000;
    }
  }

  /** Accepting a grade edit keeps the row's grades within range. */
  lemma GradeEditKeepsRange(table: ScoreTable, grades: Obj<Value>, field: string, value: string)
    requires GradesInRange(table, grades)
    requires field in Keys(table) && GradeAccepted(table, field, value)
    ensures GradesInRange(table, Set(grades, field, Text(value)))
  {
    var i := Find(table, field);
    assert i < |table| by {
      var k :| 0 <= k < |table| && Keys(table)[k] == field;
    }
    AcceptedGradeScore(table, field, value, table[i].1);
    SetKeepsRange(table, grades, field, Text(value));
  }

  /** Storing, under one of the table's keys, a value within that key's maximum keeps the row in range. */
  lemma SetKeepsRange(table: ScoreTable, grades: Obj<Value>, field: string, v: Value)
    requires GradesInRange(table, grades)
    requires Find(table, field) < |table| && ScoreInRange(v, table[Find(table, field)].1)
    ensures GradesInRange(table, Set(grades, field, v))
  {
    FindByKeys(grades, table, field);
    var i := Find(table, field);
    var g' := Set(grades, field, v);
    assert g' == grades[i := (field, v)];
    assert Keys(g') == Keys(grades) by {
      assert forall j :: 0 <= j < |g'| ==> Keys(g')[j] == Keys(grades)[j];
    }
    forall j | 0 <= j < |g'|
      ensures ScoreInRange(g'[j].1, table[j].1)
    {
      if j != i { assert g'[j] == grades[j]; }
    }
  }

  /** A text that is all digits except for one point at `k`. */
  predicate PointedAt(s: string, k: nat) {
    k < |s| && s[k] == '.' && forall i :: 0 <= i < |s| && i != k ==> IsDigit(s[i])
  }

  /** The pattern on digits, a point and digits: at most two digits after the point. */
  lemma PointedPattern(s: string, k: nat)
    requires PointedAt(s, k)
    ensures IsPerformanceText(s) <==> |s| - k <= 3
  {
    DigitEndAt(s, 0, k);
    DigitEndAt(s, k + 1, |s|);
  }

  /** The pattern admits every digit string. */
  lemma DigitsPattern(s: string)
    requires AllDigits(s)
    ensures IsPerformanceText(s)
  {
    DigitEndAt(s, 0, |s|);
  }

  /** A text the pattern admits is digits, or digits, a point at `k` and at most two digits. */
  lemma PerformanceTextShape(s: string) returns (k: nat)
    requires IsPerformanceText(s)
    ensures k == |s| ==> AllDigits(s)
    ensures k != |s| ==> PointedAt(s, k) && |s| - k <= 3
  {
    k := DigitEnd(s, 0);
  }

  /** The hundredths that at most two digits after a point stand for. */
  lemma FractionHundredths(s: string, lo: nat, hi: nat) returns (c: nat)
    requires lo <= hi <= |s| && hi - lo <= 2
    ensures Fraction(s, lo, hi) == c as real / 100.0
    ensures c == DigitsValue(s, lo, hi) * (if hi - lo == 0 then 100 else if hi - lo == 1 then 10 else 1)
  {
    if lo == hi {
      c := 0;
    } else if hi - lo == 1 {
      assert Fraction(s, lo, hi) == DigitValue(s[lo]) as real / 10.0;
      assert DigitsValue(s, lo, hi) == DigitValue(s[lo]);
      c := 10 * DigitValue(s[lo]);
    } else {
      var d0, d1 := DigitValue(s[lo]), DigitValue(s[lo + 1]);
      assert Fraction(s, lo + 1, hi) == d1 as real / 10.0;
      assert DigitsValue(s, lo, lo + 1) == d0;
      assert DigitsValue(s, lo, hi) == 10 * d0 + d1;
      c := 10 * d0 + d1;
    }
  }

  /**
   * Digits, a point at `k` and digits pass `handlePerformanceChange`'s guard
   * exactly when the text is not a lone point, has at most two decimals, and
   * spells a number not above 5.
   */
  lemma PointedAccepted(s: string, k: nat)
    requires PointedAt(s, k)
    ensures PerformanceAccepted(s)
      <==> |s| > 1 && |s| - k <= 3 && DigitsValue(s, 0, k) as real + Fraction(s, k + 1, |s|) <= 5.0
  {
    PointedPattern(s, k);
    PointedDecimal(s, k);
  }

  /** A text of digits passes the guard exactly when the number it spells is at most 5. */
  lemma DigitsAccepted(s: string)
    requires AllDigits(s) && s != []
    ensures PerformanceAccepted(s) <==> DigitsValue(s, 0, |s|) <= 5
  {
    DigitsPattern(s);
    DigitsDecimal(s);
  }

  /**
   * An accepted performance text other than "" is a number of hundredths
   * between 0 and 500: the at-most-two-decimals value the page stores.
   */
  lemma AcceptedPerformanceValue(value: string) returns (h: int)
    requires PerformanceAccepted(value) && value != ""
    ensures 0 <= h <= 500 && ParseFloatText(value) == Some(h as real / 100.0)
    ensures PerformanceInRange(Text(value))
  {
    var k := PerformanceTextShape(value);
    if k == |value| {
      h := DigitsHundredths(value);
    } else {
      h := PointedHundredths(value, k);
    }
  }

  /** Digits, a point and at most two digits spell a number of hundredths (a lone point spells none). */
  lemma PointedHundredths(s: string, k: nat) returns (h: int)
    requires PointedAt(s, k) && |s| - k <= 3
    ensures ParseFloatText(s) == if |s| == 1 then None else Some(h as real / 100.0)
  {
    var c := FractionHundredths(s, k + 1, |s|);
    h := DigitsValue(s, 0, k) * 100 + c;
    PointedDecimal(s, k);
  }

  /** Digits alone spell a whole number of hundredths. */
  lemma DigitsHundredths(s: string) returns (h: int)
    requires AllDigits(s) && s != []
    ensures ParseFloatText(s) == Some(h as real / 100.0)
  {
    h := DigitsValue(s, 0, |s|) * 100;
    DigitsDecimal(s);
  }

  /** `handlePerformanceChange` rejects "1.234", which has three decimals. */
  lemma PerformanceGuardRejectsThreeDecimals()
    ensures !PerformanceAccepted("1.234")
  {
    PointedPattern("1.234", 1);
  }

  // ================================================================ written total

  /** `Object.entries(grades).reduce((sum, [_, v]) => sum + (parseInt(v, 10) || 0), 0)`. */
  function SumEntries(grades: Obj<Value>): int {
    if grades == [] then 0 else SumEntries(grades[..|grades| - 1]) + IntOrZero(grades[|grades| - 1].1)
  }

  /** `fields.reduce((sum, key) => sum + (parseInt(grades[key], 10) || 0), 0)`. */
  function SumFields(fields: seq<string>, grades: Obj<Value>): int {
    if fields == [] then 0
    else SumFields(fields[..|fields| - 1], grades) + IntOrZero(GetValue(grades, fields[|fields| - 1]))
  }

  /** With every grade within range the total lies between 0 and the sum of the maxima. */
  lemma {:induction false} SumEntriesBounded(table: ScoreTable, grades: Obj<Value>)
    requires GradesInRange(table, grades)
    ensures 0 <= SumEntries(grades) <= SumOfMaxima(table)
  {
    if grades != [] {
      var n := |grades|;
      assert Keys(grades[..n - 1]) == Keys(grades)[..n - 1];
      assert Keys(table[..n - 1]) == Keys(table)[..n - 1];
      SumEntriesBounded(table[..n - 1], grades[..n - 1]);
    }
  }

  lemma {:induction false} SumFieldsPrefix(grades: Obj<Value>, m: nat)
    requires UniqueKeys(grades) && m <= |grades|
    ensures SumFields(Keys(grades)[..m], grades) == SumEntries(grades[..m])
  {
    if m > 0 {
      SumFieldsPrefix(grades, m - 1);
      assert Keys(grades)[..m][..m - 1] == Keys(grades)[..m - 1];
      assert grades[..m][..m - 1] == grades[..m - 1];
      assert Find(grades, grades[m - 1].0) == m - 1;
    }
  }

  /** Summing a list of keys that is exactly the row's keys is summing all the row's entries. */
  lemma SumFieldsOfKeys(grades: Obj<Value>)
    requires UniqueKeys(grades)
    ensures SumFields(Keys(grades), grades) == SumEntries(grades)
  {
    SumFieldsPrefix(grades, |grades|);
    assert Keys(grades)[..|grades|] == Keys(grades);
    assert grades[..|grades|] == grades;
  }

  // ================================================================ performance scale

  /** `PERFORMANCE_SCALE`: (limit, grade) pairs. */
  type Scale = seq<(real, int)>

  /**
   * The index of the entry with the greatest limit not above `score`, or -1
   * when every limit is above it: the reference meaning of both pages' scans.
   */
  function BestIndex(scale: Scale, score: real): (k: int)
    ensures -1 <= k < |scale|
    ensures k >= 0 ==> scale[k].0 <= score
    ensures k >= 0 ==> forall j :: 0 <= j < |scale| && scale[j].0 <= score ==> scale[j].0 <= scale[k].0
    ensures k == -1 ==> forall j :: 0 <= j < |scale| ==> score < scale[j].0
  {
    if scale == [] then -1
    else
      var k := BestIndex(scale[..|scale| - 1], score);
      var last := |scale| - 1;
      if scale[last].0 <= score && (k == -1 || scale[k].0 < scale[last].0) then last else k
  }

  /** The grade of the greatest limit not above `score`; 60 below every limit. */
  function ScaleGrade(scale: Scale, score: real): int {
    var k := BestIndex(scale, score);
    if k == -1 then 60 else scale[k].1
  }

  /** `lookupPerformanceGrade`: 0 for a value `parseFloat` cannot read. */
  function PerformanceGrade(scale: Scale, v: Value): int {
    match ParseFloat(v)
    case None => 0
    case Some(score) => ScaleGrade(scale, score)
  }

  predicate StrictlyAscending(scale: Scale) {
    forall i, j :: 0 <= i < j < |scale| ==> scale[i].0 < scale[j].0
  }

  predicate StrictlyDescending(scale: Scale) {
    forall i, j :: 0 <= i < j < |scale| ==> scale[i].0 > scale[j].0
  }

  /** A higher limit never carries a lower grade, and no grade is below the default 60. */
  predicate GradesFollowLimits(scale: Scale) {
    (forall i, j :: 0 <= i < |scale| && 0 <= j < |scale| && scale[i].0 <= scale[j].0 ==> scale[i].1 <= scale[j].1)
    && (forall i :: 0 <= i < |scale| ==> 60 <= scale[i].1)
  }

  /** From entry `i` on, each limit is above the one before and no grade is below the one before. */
  predicate RisesFrom(scale: Scale, i: nat)
    decreases |scale| - i
  {
    i + 1 >= |scale|
    || (scale[i].0 < scale[i + 1].0 && scale[i].1 <= scale[i + 1].1 && RisesFrom(scale, i + 1))
  }

  /** From entry `i` on, each limit is below the one before and no grade is above the one before. */
  predicate FallsFrom(scale: Scale, i: nat)
    decreases |scale| - i
  {
    i + 1 >= |scale|
    || (scale[i].0 > scale[i + 1].0 && scale[i].1 >= scale[i + 1].1 && FallsFrom(scale, i + 1))
  }

  lemma {:induction false} RisesFromOrdered(scale: Scale, i: nat)
    requires RisesFrom(scale, i)
    ensures forall j, k :: i <= j < k < |scale| ==> scale[j].0 < scale[k].0 && scale[j].1 <= scale[k].1
    decreases |scale| - i
  {
    if i + 1 < |scale| {
      RisesFromOrdered(scale, i + 1);
    }
  }

  lemma {:induction false} FallsFromOrdered(scale: Scale, i: nat)
    requires FallsFrom(scale, i)
    ensures forall j, k :: i <= j < k < |scale| ==> scale[j].0 > scale[k].0 && scale[j].1 >= scale[k].1
    decreases |scale| - i
  {
    if i + 1 < |scale| {
      FallsFromOrdered(scale, i + 1);
    }
  }

  /** A scale that rises step by step from a grade of at least 60 is ascending and its grades follow its limits. */
  lemma RisingScale(scale: Scale)
    requires RisesFrom(scale, 0) && (|scale| > 0 ==> 60 <= scale[0].1)
    ensures StrictlyAscending(scale) && GradesFollowLimits(scale)
  {
    RisesFromOrdered(scale, 0);
    forall i | 0 <= i < |scale|
      ensures 60 <= scale[i].1
    {
      if i > 0 { assert scale[0].1 <= scale[i].1; }
    }
  }

  /** A scale that falls step by step to a grade of at least 60 is descending and its grades follow its limits. */
  lemma FallingScale(scale: Scale)
    requires FallsFrom(scale, 0) && (|scale| > 0 ==> 60 <= scale[|scale| - 1].1)
    ensures StrictlyDescending(scale) && GradesFollowLimits(scale)
  {
    FallsFromOrdered(scale, 0);
    forall i | 0 <= i < |scale|
      ensures 60 <= scale[i].1
    {
      if i < |scale| - 1 { assert scale[i].1 >= scale[|scale| - 1].1; }
    }
  }

  /** On a scale whose grades follow its limits, every score gets a grade between 60 and the top entry's. */
  lemma ScaleGradeBounds(scale: Scale, score: real, top: nat)
    requires GradesFollowLimits(scale) && top < |scale|
    requires forall i :: 0 <= i < |scale| ==> scale[i].0 <= scale[top].0
    ensures 60 <= ScaleGrade(scale, score) <= scale[top].1
  {
    var k := BestIndex(scale, score);
    if k == -1 {
      assert 60 <= scale[top].1;
    }
  }

  /** A scale whose grades follow its limits gives a grade that never falls as the score rises. */
  lemma ScaleGradeMonotone(scale: Scale, x: real, y: real)
    requires GradesFollowLimits(scale) && x <= y
    ensures ScaleGrade(scale, x) <= ScaleGrade(scale, y)
  {
    var kx, ky := BestIndex(scale, x), BestIndex(scale, y);
    if kx != -1 {
      assert ky != -1;
      assert scale[kx].0 <= scale[ky].0;
    }
  }

  /** An ascending scan that stops at the first limit above the score ends one past the best entry. */
  lemma AscendingScanFindsBest(scale: Scale, score: real, i: nat)
    requires StrictlyAscending(scale) && i <= |scale|
    requires forall j :: 0 <= j < i ==> scale[j].0 <= score
    requires i < |scale| ==> score < scale[i].0
    ensures BestIndex(scale, score) == i - 1
  {
    var k := BestIndex(scale, score);
    if i > 0 {
      assert scale[i - 1].0 <= score;
      assert k != -1;
      assert scale[i - 1].0 <= scale[k].0;
    }
  }

  /** A descending scan that stops at the first limit not above the score stops at the best entry. */
  lemma DescendingScanFindsBest(scale: Scale, score: real, i: nat)
    requires StrictlyDescending(scale) && i <= |scale|
    requires forall j :: 0 <= j < i ==> score < scale[j].0
    requires i < |scale| ==> scale[i].0 <= score
    ensures BestIndex(scale, score) == if i == |scale| then -1 else i
  {
    var k := BestIndex(scale, score);
    if i < |scale| {
      assert k != -1;
      assert scale[i].0 <= scale[k].0;
    }
  }

  /**
   * The Technical page's scan: walk up an ascending scale, keeping the grade
   * of each limit the score reaches, and stop at the first it does not.
   */
  method ScanAscending(scale: Scale, score: real) returns (grade: int)
    requires StrictlyAscending(scale)
    ensures grade == ScaleGrade(scale, score)
  {
    grade := 60;
    var i := 0;
    while i < |scale|
      invariant 0 <= i <= |scale|
      invariant forall j :: 0 <= j < i ==> scale[j].0 <= score
      invariant grade == if i == 0 then 60 else scale[i - 1].1
    {
      var (limit, g) := scale[i];
      if score >= limit {
        grade := g;
      } else {
        break;
      }
      i := i + 1;
    }
    AscendingScanFindsBest(scale, score, i);
  }

  /**
   * The Production page's scan: walk down a descending scale and return the
   * grade of the first limit the score reaches; 60 when it reaches none.
   */
  method ScanDescending(scale: Scale, score: real) returns (grade: int)
    requires StrictlyDescending(scale)
    ensures grade == ScaleGrade(scale, score)
  {
    var i := 0;
    while i < |scale|
      invariant 0 <= i <= |scale|
      invariant forall j :: 0 <= j < i ==> score < scale[j].0
    {
      var (limit, g) := scale[i];
      if score >= limit {
        DescendingScanFindsBest(scale, score, i);
        return g;
      }
      i := i + 1;
    }
    DescendingScanFindsBest(scale, score, i);
    return 60;
  }

  // ================================================================ results

  datatype Remark = Complete | Incomplete

  /** What `computeResults` returns; the two `toFixed(2)` strings are given as the numbers they spell. */
  datatype Results = Results(
    writtenTotal: int,
    writtenRating: real,
    performanceRating: int,
    finalGrade: real,
    remarks: Remark)

  /** `((writtenTotal / denominator) * 50 + 50).toFixed(2)`. */
  function WrittenRating(total: int, denominator: nat): real
    requires denominator > 0
  {
    ToFixed2(total as real / denominator as real * 50.0 + 50.0)
  }

  /** `(parseFloat(writtenRating) * 0.3 + parseFloat(perfRating) * 0.7).toFixed(2)`. */
  function FinalGrade(writtenRating: real, performanceRating: int): real {
    ToFixed2(writtenRating * 0.3 + performanceRating as real * 0.7)
  }

  /** `finalGrade < 75 ? "INCOMPLETE" : "COMPLETE"`. */
  function RemarkFor(finalGrade: real): Remark {
    if finalGrade < 75.0 then Incomplete else Complete
  }

  /** The arithmetic tail of `computeResults`, from the total and the performance grade. */
  function Assemble(total: int, denominator: nat, performanceRating: int): Results
    requires denominator > 0
  {
    var wr := WrittenRating(total, denominator);
    var fg := FinalGrade(wr, performanceRating);
    Results(total, wr, performanceRating, fg, RemarkFor(fg))
  }

  /** Dividing by a positive number keeps the order. */
  lemma DivideMonotone(x: real, y: real, d: real)
    requires 0.0 < d && x <= y
    ensures x / d <= y / d
  {
  }

  /** The written rating maps [0, denominator] onto [50, 100], with 50.00 and 100.00 at the ends. */
  lemma WrittenRatingRange(total: int, denominator: nat)
    requires denominator > 0 && 0 <= total <= denominator
    ensures 50.0 <= WrittenRating(total, denominator) <= 100.0
    ensures total == 0 ==> WrittenRating(total, denominator) == 50.0
    ensures total == denominator ==> WrittenRating(total, denominator) == 100.0
  {
    var d := denominator as real;
    var x := total as real / d * 50.0 + 50.0;
    DivideMonotone(0.0, total as real, d);
    DivideMonotone(total as real, d, d);
    assert d / d == 1.0;
    ToFixed2Exact(5000);
    ToFixed2Exact(10000);
    ToFixed2Monotone(50.0, x);
    ToFixed2Monotone(x, 100.0);
  }

  /** A higher total or a higher performance grade never lowers the final grade nor withdraws COMPLETE. */
  lemma AssembleMonotone(t1: int, t2: int, denominator: nat, p1: int, p2: int)
    requires denominator > 0 && t1 <= t2 && p1 <= p2
    ensures Assemble(t1, denominator, p1).finalGrade <= Assemble(t2, denominator, p2).finalGrade
    ensures Assemble(t1, denominator, p1).remarks == Complete ==> Assemble(t2, denominator, p2).remarks == Complete
  {
    var d := denominator as real;
    DivideMonotone(t1 as real, t2 as real, d);
    ToFixed2Monotone(t1 as real / d * 50.0 + 50.0, t2 as real / d * 50.0 + 50.0);
    var w1, w2 := WrittenRating(t1, denominator), WrittenRating(t2, denominator);
    ToFixed2Monotone(w1 * 0.3 + p1 as real * 0.7, w2 * 0.3 + p2 as real * 0.7);
  }

  /**
   * With a written rating in [50, 100] the remark is decided by the
   * performance grade at both ends: 64 or less never completes, 86 or more
   * always does.
   */
  lemma RemarkByPerformance(writtenRating: real, performanceRating: int)
    requires 50.0 <= writtenRating <= 100.0
    ensures performanceRating <= 64 ==> RemarkFor(FinalGrade(writtenRating, performanceRating)) == Incomplete
    ensures performanceRating >= 86 ==> RemarkFor(FinalGrade(writtenRating, performanceRating)) == Complete
  {
    var x := writtenRating * 0.3 + performanceRating as real * 0.7;
    if performanceRating <= 64 {
      ToFixed2Monotone(x, 74.8);
      ToFixed2Exact(7480);
    }
    if performanceRating >= 86 {
      ToFixed2Monotone(75.2, x);
      ToFixed2Exact(7520);
    }
  }

  // ================================================================ department filter

  /** Which page is active, read from the path. */
  datatype ViewFlags = ViewFlags(support: bool, production: bool, technical: bool)

  /** `path.toLowerCase().includes(...)` for the three route segments. */
  function FlagsOf(pathname: string): ViewFlags {
    var path := Lower(pathname);
    ViewFlags(Includes(path, "/records/"), Includes(path, "/production/"), Includes(path, "/technical/"))
  }

  const SupportDepartments: seq<string> := ["ACCTG", "ERT", "HSN", "HS", "ER"]
  const ProductionDepartments: seq<string> := ["PROD"]
  const TechnicalDepartments: seq<string> := ["IT"]

  /**
   * `(row["DEPARTMENT"] || "").toUpperCase().trim()`; `None` when the value is
   * a non-zero number, on which `toUpperCase` is not a function and the
   * filter throws.
   */
  function DepartmentKey(fields: Obj<Value>): Option<string> {
    match Or(GetValue(fields, "DEPARTMENT"), Text(""))
    case Text(s) => Some(Trim(Upper(s)))
    case _ => None
  }

  /** The filter's test: Support, then Production, then Technical; every row when no flag is set. */
  predicate Shown(dept: string, flags: ViewFlags) {
    if flags.support then dept in SupportDepartments
    else if flags.production then dept in ProductionDepartments
    else if flags.technical then dept in TechnicalDepartments
    else true
  }

  /** A department written " it " is keyed "IT", and that row is shown exactly in the views that are neither Support nor Production. */
  lemma ItDepartmentView(flags: ViewFlags)
    ensures DepartmentKey([("DEPARTMENT", Text(" it "))]) == Some("IT")
    ensures Shown("IT", flags) <==> !flags.support && !flags.production
  {
    assert Upper(" it ") == " IT ";
    assert SkipSpaces(" IT ", 1) == 1;
    assert TrimStart(" IT ") == "IT ";
    assert SpacesBefore("IT ", 2) == 2;
    assert TrimEnd("IT ") == "IT";
  }

  /** Each row's department key, in row order. */
  function Departments(rows: seq<Obj<Value>>): (ds: seq<Option<string>>)
    ensures |ds| == |rows|
    ensures forall i :: 0 <= i < |rows| ==> ds[i] == DepartmentKey(rows[i])
  {
    seq(|rows|, i requires 0 <= i < |rows| => DepartmentKey(rows[i]))
  }

  /** Each row's own fields, in row order. */
  function RowFields(rows: seq<StudentRow>): (fs: seq<Obj<Value>>)
    ensures |fs| == |rows|
    ensures forall i :: 0 <= i < |rows| ==> fs[i] == rows[i].fields
  {
    seq(|rows|, i requires 0 <= i < |rows| => rows[i].fields)
  }

  /**
   * The positions `rows.filter(...)` keeps, from the rows' department keys;
   * `None` when the filter throws.
   */
  function KeptIndices(depts: seq<Option<string>>, flags: ViewFlags): Option<seq<nat>> {
    if depts == [] then Some([])
    else
      match KeptIndices(depts[..|depts| - 1], flags)
      case None => None
      case Some(ix) =>
        match depts[|depts| - 1]
        case None => None
        case Some(dept) => Some(if Shown(dept, flags) then ix + [|depts| - 1] else ix)
  }

  /** `filteredRows`, given the kept positions. */
  function Pick<T>(rows: seq<T>, ix: seq<nat>): (r: seq<T>)
    requires forall j :: 0 <= j < |ix| ==> ix[j] < |rows|
    ensures |r| == |ix|
    ensures forall j :: 0 <= j < |ix| ==> r[j] == rows[ix[j]]
  {
    seq(|ix|, j requires 0 <= j < |ix| => rows[ix[j]])
  }

  predicate IncreasingBelow(ix: seq<nat>, n: nat) {
    (forall j :: 0 <= j < |ix| ==> ix[j] < n)
    && (forall i, j :: 0 <= i < j < |ix| ==> ix[i] < ix[j])
  }

  /** The filter throws exactly when some row's department is a non-zero number. */
  lemma {:induction false} KeptIndicesThrows(depts: seq<Option<string>>, flags: ViewFlags)
    ensures KeptIndices(depts, flags).None? <==> None in depts
  {
    if depts != [] {
      var n := |depts|;
      KeptIndicesThrows(depts[..n - 1], flags);
      assert depts == depts[..n - 1] + [depts[n - 1]];
    }
  }

  /**
   * When it does not throw, the filter keeps, in their order, exactly the rows
   * whose department the active view shows.
   */
  lemma {:induction false} KeptIndicesKeeps(depts: seq<Option<string>>, flags: ViewFlags)
    requires KeptIndices(depts, flags).Some?
    ensures IncreasingBelow(KeptIndices(depts, flags).value, |depts|)
    ensures forall i :: 0 <= i < |depts| ==>
      depts[i].Some? && (i in KeptIndices(depts, flags).value <==> Shown(depts[i].value, flags))
  {
    if depts != [] {
      var n := |depts|;
      var init := depts[..n - 1];
      KeptIndicesKeeps(init, flags);
      var ix := KeptIndices(init, flags).value;
      var r := KeptIndices(depts, flags).value;
      assert r == if Shown(depts[n - 1].value, flags) then ix + [n - 1] else ix;
      assert n - 1 !in ix;
      forall i | 0 <= i < n - 1
        ensures depts[i].Some? && (i in r <==> Shown(depts[i].value, flags))
      {
        assert depts[i] == init[i];
        assert i in r <==> i in ix;
      }
    }
  }

  /** `[0, 1, ..., n - 1]`. */
  function Positions(n: nat): (ps: seq<nat>)
    ensures |ps| == n && forall i :: 0 <= i < n ==> ps[i] == i
  {
    if n == 0 then [] else Positions(n - 1) + [n - 1]
  }

  /** With no path flag set the filter keeps every row, at its own position. */
  lemma {:induction false} KeptIndicesNoFlag(depts: seq<Option<string>>)
    requires None !in depts
    ensures KeptIndices(depts, ViewFlags(false, false, false)) == Some(Positions(|depts|))
  {
    if depts != [] {
      var n := |depts|;
      var init := depts[..n - 1];
      assert None !in init by {
        assert forall i :: 0 <= i < |init| ==> init[i] == depts[i];
      }
      KeptIndicesNoFlag(init);
      assert depts[n - 1] != None;
    }
  }

  /** `rows.findIndex((r) => r === row)`: the first position holding `x`, -1 when there is none. */
  function IndexOf<T(==)>(rows: seq<T>, x: T): (i: int)
    ensures -1 <= i < |rows|
    ensures i >= 0 ==> rows[i] == x && forall j :: 0 <= j < i ==> rows[j] != x
    ensures i == -1 ==> x !in rows
  {
    if rows == [] then -1
    else if rows[0] == x then 0
    else var i := IndexOf(rows[1..], x); if i == -1 then -1 else i + 1
  }

  /**
   * When no two positions hold the same row, looking a displayed row up by
   * identity yields the very position the filter took it from.
   */
  lemma IndexOfPicked<T>(rows: seq<T>, ix: seq<nat>, j: nat)
    requires forall a, b :: 0 <= a < b < |rows| ==> rows[a] != rows[b]
    requires IncreasingBelow(ix, |rows|) && j < |ix|
    ensures IndexOf(rows, Pick(rows, ix)[j]) == ix[j]
  {
    var i := IndexOf(rows, Pick(rows, ix)[j]);
    assert rows[ix[j]] == Pick(rows, ix)[j];
  }
}
