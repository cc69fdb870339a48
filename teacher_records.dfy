/**
 * The teacher's list of every learner's records (`src/components/TeacherRecordsPage.tsx`):
 * the name column, the three filters, the four-way sort and its toggle, the
 * lists of names and subjects for the filter menus, the CSV export and the
 * colour of a record's percentage. The table read is a parameter, and so are
 * `toLowerCase` and the two `ja-JP` date formats.
 */
module TeacherRecords {
  import opened Wrappers
  import Text
  import Lists
  import Percent
  import ObjectLiteral
  import Dates
  import Csv
  import HistoryPage
  import opened Schema

  /** A record with the name shown for its learner. */
  datatype Row = Row(record: StudyRecord, studentName: string)

  datatype SortField = ByDate | ByStudentName | BySubject | ByAccuracy
  datatype SortDirection = Asc | Desc

  /** The three filter inputs; an empty input does not filter. */
  datatype Filters = Filters(student: string, subject: string, date: string)

  /** `record.student_id || '不明'`: a missing or empty id shows as 不明. */
  function StudentName(r: StudyRecord): (name: string)
    ensures name != ""
    ensures name == "不明" || r.studentId == Some(name)
    ensures r.studentId.None? || r.studentId == Some("") ==> name == "不明"
  {
    if r.studentId.Some? && r.studentId.value != "" then r.studentId.value else "不明"
  }

  /** The records of the read, each with its learner's name. */
  function Format(records: seq<StudyRecord>): (rows: seq<Row>)
    ensures |rows| == |records|
    ensures forall i :: 0 <= i < |records| ==> rows[i] == Row(records[i], StudentName(records[i]))
  {
    seq(|records|, i requires 0 <= i < |records| => Row(records[i], StudentName(records[i])))
  }

  // ---------------------------------------------------------------------------
  // Filtering
  // ---------------------------------------------------------------------------

  /** The filter callback; `lower` is `toLowerCase` and the study date is matched in its `YYYY-MM-DD` text. */
  predicate Keep(row: Row, fs: Filters, lower: string -> string) {
    if fs.student != "" && !Text.Contains(lower(row.studentName), lower(fs.student)) then false
    else if fs.subject != "" && row.record.subject != fs.subject then false
    else if fs.date != "" && !Text.Contains(Dates.IsoDate(row.record.studyDate), fs.date) then false
    else true
  }

  function Filtered(rows: seq<Row>, fs: Filters, lower: string -> string): seq<Row> {
    Lists.Filter(rows, (row: Row) => Keep(row, fs, lower))
  }

  /**
   * A row is kept exactly when every non-empty filter passes (name contains the
   * name filter ignoring case, subject equal, study date contains the date
   * filter), as often as it occurs; with all three inputs empty nothing is dropped.
   */
  lemma FilteredFacts(rows: seq<Row>, fs: Filters, lower: string -> string)
    ensures forall x :: x in Filtered(rows, fs, lower) <==>
              x in rows
              && (fs.student == "" || Text.Contains(lower(x.studentName), lower(fs.student)))
              && (fs.subject == "" || x.record.subject == fs.subject)
              && (fs.date == "" || Text.Contains(Dates.IsoDate(x.record.studyDate), fs.date))
    ensures forall x :: multiset(Filtered(rows, fs, lower))[x] == if Keep(x, fs, lower) then multiset(rows)[x] else 0
    ensures fs == Filters("", "", "") ==> Filtered(rows, fs, lower) == rows
  {
    Lists.FilterMembers(rows, (row: Row) => Keep(row, fs, lower));
    Lists.FilterCounts(rows, (row: Row) => Keep(row, fs, lower));
    if fs == Filters("", "", "") {
      KeepAll(rows, fs, lower);
    }
  }

  lemma {:induction false} KeepAll(rows: seq<Row>, fs: Filters, lower: string -> string)
    requires fs == Filters("", "", "")
    ensures Filtered(rows, fs, lower) == rows
  {
    if rows != [] {
      KeepAll(rows[..|rows| - 1], fs, lower);
      assert rows == rows[..|rows| - 1] + [rows[|rows| - 1]];
    }
  }

  // ---------------------------------------------------------------------------
  // Sorting
  // ---------------------------------------------------------------------------

  /** A value the comparator compares: a number or a string. */
  datatype Value = Num(x: real) | Str(s: string)

  /**
   * The value of a sort field: the percentage of correct answers, the record's
   * date, the learner's name or the subject code. A total of 0, which the
   * table's CHECK constraints exclude, gets the key 0 instead of an infinity or `NaN`.
   */
  function SortKey(row: Row, f: SortField): Value {
    match f
    case ByAccuracy =>
      var r := row.record;
      Num(if r.questionsTotal != 0 then (r.questionsCorrect as real / r.questionsTotal as real) * 100.0 else 0.0)
    case ByDate => Num(row.record.date as real)
    case ByStudentName => Str(row.studentName)
    case BySubject => Str(row.record.subject)
  }

  /** JavaScript's `u < v` between two numbers or two strings (code-unit order). */
  predicate Below(u: Value, v: Value) {
    match (u, v)
    case (Num(x), Num(y)) => x < y
    case (Str(a), Str(b)) => !Text.StrLe(b, a)
    case _ => false
  }

  /** The comparator: -1 or 1 when one value is below the other, swapped for `'desc'`, and 0 otherwise. */
  function Compare(a: Row, b: Row, f: SortField, d: SortDirection): int {
    var ka, kb := SortKey(a, f), SortKey(b, f);
    if Below(ka, kb) then (if d == Asc then -1 else 1)
    else if Below(kb, ka) then (if d == Asc then 1 else -1)
    else 0
  }

  /** Two values neither of which is below the other: equal numbers, or strings of the same code units. */
  predicate Tied(u: Value, v: Value) {
    match (u, v)
    case (Num(x), Num(y)) => x == y
    case (Str(a), Str(b)) => Text.Utf16(a) == Text.Utf16(b)
    case _ => false
  }

  /**
   * The comparator is antisymmetric, `'desc'` is `'asc'` negated, it answers 0
   * exactly on tied keys, and `'asc'` answers -1 exactly when the first key is below.
   */
  lemma CompareFacts(a: Row, b: Row, f: SortField, d: SortDirection)
    ensures Compare(a, b, f, d) in {-1, 0, 1}
    ensures Compare(a, b, f, d) == -Compare(b, a, f, d)
    ensures Compare(a, b, f, Desc) == -Compare(a, b, f, Asc)
    ensures Compare(a, b, f, d) == 0 <==> Tied(SortKey(a, f), SortKey(b, f))
    ensures Compare(a, b, f, Asc) == -1 <==> Below(SortKey(a, f), SortKey(b, f))
  {
    var ka, kb := SortKey(a, f), SortKey(b, f);
    if ka.Str? {
      Text.LexLeTotal(Text.Utf16(ka.s), Text.Utf16(kb.s));
      if Text.StrLe(ka.s, kb.s) && Text.StrLe(kb.s, ka.s) {
        Text.LexLeAntisymmetric(Text.Utf16(ka.s), Text.Utf16(kb.s));
      }
    }
  }

  /** `a` may stay before `b`: the comparator does not put `b` first. */
  function SortLe(f: SortField, d: SortDirection): (Row, Row) -> bool {
    (a: Row, b: Row) => Compare(a, b, f, d) <= 0
  }

  lemma SortLeIsPreorder(f: SortField, d: SortDirection)
    ensures Lists.TotalPreorder(SortLe(f, d))
  {
    Text.StrLeTotalPreorder();
  }

  /** `filteredAndSortedRecords`. */
  function FilteredAndSorted(rows: seq<Row>, fs: Filters, lower: string -> string, f: SortField, d: SortDirection): seq<Row> {
    Lists.SortBy(Filtered(rows, fs, lower), SortLe(f, d))
  }

  /**
   * The list shown is a permutation of the kept rows in which no key is below
   * an earlier one for `'asc'`, and none is above an earlier one for `'desc'`.
   */
  lemma FilteredAndSortedFacts(rows: seq<Row>, fs: Filters, lower: string -> string, f: SortField, d: SortDirection)
    ensures var r := FilteredAndSorted(rows, fs, lower, f, d);
            multiset(r) == multiset(Filtered(rows, fs, lower))
            && (d == Asc ==> forall i, j :: 0 <= i < j < |r| ==> !Below(SortKey(r[j], f), SortKey(r[i], f)))
            && (d == Desc ==> forall i, j :: 0 <= i < j < |r| ==> !Below(SortKey(r[i], f), SortKey(r[j], f)))
  {
    var r := FilteredAndSorted(rows, fs, lower, f, d);
    SortLeIsPreorder(f, d);
    Lists.SortBySorted(Filtered(rows, fs, lower), SortLe(f, d));
    forall i, j | 0 <= i < j < |r|
      ensures d == Asc ==> !Below(SortKey(r[j], f), SortKey(r[i], f))
      ensures d == Desc ==> !Below(SortKey(r[i], f), SortKey(r[j], f))
    {
      assert SortLe(f, d)(r[i], r[j]);
      CompareFacts(r[i], r[j], f, d);
    }
  }

  /** On valid rows the accuracy key orders by the ratio of correct answers, cross-multiplied. */
  lemma AccuracyKeyOrder(a: Row, b: Row)
    requires a.record.questionsTotal > 0 && b.record.questionsTotal > 0
    ensures Below(SortKey(a, ByAccuracy), SortKey(b, ByAccuracy)) <==>
              Percent.RatioLess(a.record.questionsCorrect, a.record.questionsTotal, b.record.questionsCorrect, b.record.questionsTotal)
  {
    var ca, ta := a.record.questionsCorrect as real, a.record.questionsTotal as real;
    var cb, tb := b.record.questionsCorrect as real, b.record.questionsTotal as real;
    assert ca / ta < cb / tb <==> ca * tb < cb * ta by {
      assert ca / ta * (ta * tb) == ca * tb;
      assert cb / tb * (ta * tb) == cb * ta;
    }
    assert (a.record.questionsCorrect * b.record.questionsTotal) as real == ca * tb;
    assert (b.record.questionsCorrect * a.record.questionsTotal) as real == cb * ta;
  }

  /** The date key orders by the record's date; the name and subject keys by code units. */
  lemma OtherKeyOrder(a: Row, b: Row)
    ensures Below(SortKey(a, ByDate), SortKey(b, ByDate)) <==> a.record.date < b.record.date
    ensures Below(SortKey(a, ByStudentName), SortKey(b, ByStudentName)) <==> !Text.StrLe(b.studentName, a.studentName)
    ensures Below(SortKey(a, BySubject), SortKey(b, BySubject)) <==> !Text.StrLe(b.record.subject, a.record.subject)
  {
  }

  // ---------------------------------------------------------------------------
  // Lists for the filter menus
  // ---------------------------------------------------------------------------

  /** `[...new Set(xs)].sort()`. */
  function UniqueSorted(xs: seq<string>): seq<string> {
    Lists.SortBy(Lists.Distinct(xs), Text.StrLe)
  }

  /** Every value once, nothing else, in code-unit order. */
  lemma UniqueSortedFacts(xs: seq<string>)
    ensures var u := UniqueSorted(xs);
            (forall x :: x in u <==> x in xs)
            && Lists.NoDuplicates(u)
            && Lists.SortedBy(u, Text.StrLe)
  {
    var d := Lists.Distinct(xs);
    Lists.DistinctFacts(xs);
    Text.StrLeTotalPreorder();
    assert Lists.TotalPreorder(Text.StrLe);
    Lists.SortBySorted(d, Text.StrLe);
    Lists.SameMembers(UniqueSorted(xs), d);
    Lists.PermutationKeepsNoDuplicates(UniqueSorted(xs), d);
  }

  /** The names of the rows' learners. */
  function StudentNames(rows: seq<Row>): (names: seq<string>)
    ensures |names| == |rows| && forall i :: 0 <= i < |rows| ==> names[i] == rows[i].studentName
  {
    seq(|rows|, i requires 0 <= i < |rows| => rows[i].studentName)
  }

  /** The rows' subject codes. */
  function SubjectCodes(rows: seq<Row>): (codes: seq<string>)
    ensures |codes| == |rows| && forall i :: 0 <= i < |rows| ==> codes[i] == rows[i].record.subject
  {
    seq(|rows|, i requires 0 <= i < |rows| => rows[i].record.subject)
  }

  // ---------------------------------------------------------------------------
  // Labels
  // ---------------------------------------------------------------------------

  const SubjectLabels: map<string, string> :=
    map["aptitude" := "適性", "japanese" := "国語", "math" := "算数", "science" := "理科", "social" := "社会"]

  const EmotionLabels: map<string, string> := map["good" := "😊", "normal" := "😐", "hard" := "😞"]

  /** `getSubjectLabel(subject)` of this page, whose aptitude label is the short 適性, read from the table's own keys. */
  function SubjectLabel(s: string): string {
    ObjectLiteral.OwnOr(SubjectLabels, s, s)
  }

  /** `getEmotionLabel(emotion)`: a face for each feeling, read from the table's own keys. */
  function EmotionLabel(e: string): string {
    ObjectLiteral.OwnOr(EmotionLabels, e, e)
  }

  /**
   * The five subjects and the three feelings get distinct labels; unknown codes
   * pass through. The reads as written agree, except that they answer a name
   * every object inherits with that inherited member, which is no string.
   */
  lemma LabelCases(code: string)
    ensures forall i, j :: 0 <= i < j < 5 ==> SubjectLabel(Subjects[i]) != SubjectLabel(Subjects[j])
    ensures forall i, j :: 0 <= i < j < 3 ==> EmotionLabel(Emotions[i]) != EmotionLabel(Emotions[j])
    ensures code !in Subjects ==> SubjectLabel(code) == code
    ensures code !in Emotions ==> EmotionLabel(code) == code
    ensures code !in ObjectLiteral.Inherited ==>
              ObjectLiteral.ReadOr(SubjectLabels, code, code) == ObjectLiteral.Str(SubjectLabel(code))
              && ObjectLiteral.ReadOr(EmotionLabels, code, code) == ObjectLiteral.Str(EmotionLabel(code))
    ensures code in ObjectLiteral.Inherited ==>
              ObjectLiteral.ReadOr(SubjectLabels, code, code) == ObjectLiteral.InheritedMember(code)
              && ObjectLiteral.ReadOr(EmotionLabels, code, code) == ObjectLiteral.InheritedMember(code)
  {
  }

  // ---------------------------------------------------------------------------
  // The CSV export
  // ---------------------------------------------------------------------------

  const Headers: seq<string> := ["記録日時", "学生名", "科目", "種別", "学習実施日", "挑戦回数", "問題数", "正解数", "正答率", "気持ち", "コメント"]

  /** The feeling column of the export; anything but good and normal is written as 難しかった. */
  function EmotionText(e: string): (text: string)
    ensures text == "よくできた" <==> e == "good"
    ensures text == "普通" <==> e == "normal"
    ensures text == "難しかった" <==> e != "good" && e != "normal"
  {
    if e == "good" then "よくできた" else if e == "normal" then "普通" else "難しかった"
  }

  /**
   * The eleven cells of a row. `dateTime` is `toLocaleString('ja-JP')` of the
   * record's date and `day` is `toLocaleDateString('ja-JP')` of its study date.
   */
  function CsvCells(row: Row, dateTime: int -> string, day: int -> string): (cells: seq<string>)
    ensures |cells| == |Headers|
  {
    var r := row.record;
    [dateTime(r.date), row.studentName, SubjectLabel(r.subject), HistoryPage.ContentTypeLabel(r.contentType),
     day(r.studyDate), Text.IntToString(r.attemptNumber), Text.IntToString(r.questionsTotal),
     Text.IntToString(r.questionsCorrect),
     Percent.NumberText(Percent.Accuracy(r.questionsCorrect, r.questionsTotal)) + "%",
     EmotionText(r.emotion), r.comment.GetOr("")]
  }

  /** The header row and one row of cells per record shown. */
  function CsvTable(rows: seq<Row>, dateTime: int -> string, day: int -> string): (table: seq<seq<string>>)
    ensures |table| == |rows| + 1 && table[0] == Headers
    ensures forall i :: 0 <= i < |rows| ==> table[i + 1] == CsvCells(rows[i], dateTime, day)
  {
    [Headers] + seq(|rows|, i requires 0 <= i < |rows| => CsvCells(rows[i], dateTime, day))
  }

  /** `exportToCSV()`'s text as the page writes it: cells quoted without escaping their quotes. */
  function ExportCsvAsWritten(rows: seq<Row>, dateTime: int -> string, day: int -> string): string {
    Csv.Content(CsvTable(rows, dateTime, day), Csv.QuoteAsWritten)
  }

  /** The export with the quotes inside cells doubled. */
  function ExportCsv(rows: seq<Row>, dateTime: int -> string, day: int -> string): string {
    Csv.Content(CsvTable(rows, dateTime, day), Csv.Quote)
  }

  /** The export reads back as the header and, in order, the eleven cells of every record shown. */
  lemma ExportReadsBack(rows: seq<Row>, dateTime: int -> string, day: int -> string)
    ensures Csv.ReadAll(ExportCsv(rows, dateTime, day)) == Some(CsvTable(rows, dateTime, day))
  {
    var table := CsvTable(rows, dateTime, day);
    forall i | 0 <= i < |table| ensures |table[i]| >= 1 {
      if i > 0 {
        assert table[i] == CsvCells(rows[i - 1], dateTime, day);
      }
    }
    Csv.ReadAllContent(table);
  }

  /**
   * The export as written of a record commented `a"b` is not read back at all,
   * when its other cells hold no double quote.
   */
  lemma ExportAsWrittenUnreadable(row: Row, dateTime: int -> string, day: int -> string)
    requires row.record.comment == Some("a\"b")
    requires forall j :: 0 <= j < |Headers| - 1 ==> Csv.QuoteFree(CsvCells(row, dateTime, day)[j])
    ensures Csv.ReadAll(ExportCsvAsWritten([row], dateTime, day)) == None
  {
    var table := CsvTable([row], dateTime, day);
    assert table[1] == CsvCells(row, dateTime, day);
    forall j | 0 <= j < |Headers| ensures Csv.QuoteFree(Headers[j]) {
    }
    Csv.ContentQuoteLastUnreadable(table);
  }

  /** Without a double quote in any cell, the export as written is the escaped export. */
  lemma ExportAsWrittenAgrees(rows: seq<Row>, dateTime: int -> string, day: int -> string)
    requires var t := CsvTable(rows, dateTime, day);
             forall i, j, k :: 0 <= i < |t| && 0 <= j < |t[i]| && 0 <= k < |t[i][j]| ==> t[i][j][k] != '"'
    ensures ExportCsvAsWritten(rows, dateTime, day) == ExportCsv(rows, dateTime, day)
  {
    Csv.ContentWithoutQuotes(CsvTable(rows, dateTime, day));
  }

  // ---------------------------------------------------------------------------
  // The colour of a percentage
  // ---------------------------------------------------------------------------

  datatype Colour = Green | Yellow | Red

  /** `c / t * 100 >= p` in JavaScript for `t != 0`, cross-multiplied. */
  predicate AtLeast(c: int, t: int, p: int)
    requires t != 0
  {
    if t > 0 then 100 * c >= p * t else 100 * c <= p * t
  }

  /**
   * Green from 80%, yellow from 60%, red below. A zero total is green when the
   * quotient is `Infinity` and red when it is `NaN` or `-Infinity`, which fail both tests.
   */
  function AccuracyColour(c: int, t: int): Colour {
    if t == 0 then (if c > 0 then Green else Red)
    else if AtLeast(c, t, 80) then Green
    else if AtLeast(c, t, 60) then Yellow
    else Red
  }

  /** For a positive total the colour follows the exact percentage. */
  lemma AccuracyColourThresholds(c: int, t: int)
    requires t > 0
    ensures var x := (c as real / t as real) * 100.0;
            (AccuracyColour(c, t) == Green <==> x >= 80.0)
            && (AccuracyColour(c, t) == Yellow <==> 60.0 <= x < 80.0)
            && (AccuracyColour(c, t) == Red <==> x < 60.0)
  {
    PercentAtLeast(c, t, 80);
    PercentAtLeast(c, t, 60);
  }

  /** `c / t * 100 >= p` over the reals is the cross-multiplied test, for a positive total. */
  lemma PercentAtLeast(c: int, t: int, p: int)
    requires t > 0
    ensures (c as real / t as real) * 100.0 >= p as real <==> 100 * c >= p * t
  {
    var cr, tr := c as real, t as real;
    var q := cr / tr;
    var x := q * 100.0;
    assert q * tr == cr;
    assert x * tr == 100.0 * (q * tr);
    ScaleKeepsOrder(x, p as real, tr);
    assert (100 * c) as real == 100.0 * cr;
    assert (p * t) as real == p as real * tr;
  }

  /** Multiplying by a positive number keeps the order of two reals. */
  lemma ScaleKeepsOrder(x: real, y: real, k: real)
    requires k > 0.0
    ensures x >= y <==> x * k >= y * k
  {
    assert x * k - y * k == (x - y) * k;
  }

  /** A green percentage is shown as at least 80 and a red one as at most 60. */
  lemma ColourAgreesWithShownPercent(c: int, t: int)
    requires t > 0
    ensures AccuracyColour(c, t) == Green ==> Percent.RoundPercent(c, t) >= 80
    ensures AccuracyColour(c, t) == Red ==> Percent.RoundPercent(c, t) <= 60
  {
    var r := Percent.RoundPercent(c, t);
    Percent.RoundPercentBounds(c, t);
    if AccuracyColour(c, t) == Green && r < 80 {
      Percent.MulMono(t, 2 * r + 1, 159);
    }
    if AccuracyColour(c, t) == Red && r > 60 {
      Percent.MulMono(t, 121, 2 * r - 1);
    }
  }

  /** The converse fails: 35 of 44 is shown as 80% but coloured yellow, since 79.5% is below the threshold. */
  lemma ShownEightyCanBeYellow()
    ensures Percent.RoundPercent(35, 44) == 80 && AccuracyColour(35, 44) == Yellow
  {
  }

  // ---------------------------------------------------------------------------
  // The page's state
  // ---------------------------------------------------------------------------

  const FetchFailed: string := "記録の取得に失敗しました"

  class TeacherView {
    var records: seq<Row>
    var error: string
    var sortField: SortField
    var sortDirection: SortDirection

    constructor ()
      ensures records == [] && error == "" && sortField == ByDate && sortDirection == Desc
    {
      records := [];
      error := "";
      sortField := ByDate;
      sortDirection := Desc;
    }

    /**
     * `fetchRecords()`: `read` is the table read, `Failed` when it reports an
     * error, with `None` for a `null` result. A success does not clear an earlier error.
     */
    method FetchRecords(read: Result<Option<seq<StudyRecord>>>)
      modifies this
      ensures read.Ok? ==> records == Format(read.value.GetOr([])) && error == old(error)
      ensures read.Failed? ==> records == old(records) && error == FetchFailed
      ensures sortField == old(sortField) && sortDirection == old(sortDirection)
    {
      if read.Failed? {
        error := FetchFailed;
        return;
      }
      records := Format(read.value.GetOr([]));
    }

    /** `handleSort(field)`: the same field flips the direction; another field is chosen with `'desc'`. */
    method HandleSort(f: SortField)
      modifies this
      ensures old(sortField) == f ==> sortField == f && sortDirection == (if old(sortDirection) == Asc then Desc else Asc)
      ensures old(sortField) != f ==> sortField == f && sortDirection == Desc
      ensures records == old(records) && error == old(error)
    {
      if sortField == f {
        sortDirection := if sortDirection == Asc then Desc else Asc;
      } else {
        sortField := f;
        sortDirection := Desc;
      }
    }

    /** `getSortIcon(field)`. */
    function SortIcon(f: SortField): (icon: string)
      reads this
      ensures icon == "↕️" <==> sortField != f
      ensures icon == "↑" <==> sortField == f && sortDirection == Asc
      ensures icon == "↓" <==> sortField == f && sortDirection == Desc
    {
      if sortField != f then "↕️"
      else match sortDirection
        case Asc => "↑"
        case Desc => "↓"
    }

    /** The rows shown for the current filters and sort. */
    function Shown(fs: Filters, lower: string -> string): seq<Row>
      reads this
    {
      FilteredAndSorted(records, fs, lower, sortField, sortDirection)
    }

    /** `uniqueStudents` and `uniqueSubjects`. */
    function Menus(): (menus: (seq<string>, seq<string>))
      reads this
      ensures |menus.0| <= |records| && |menus.1| <= |records|
    {
      Lists.DistinctNoLonger(StudentNames(records));
      Lists.DistinctNoLonger(SubjectCodes(records));
      (UniqueSorted(StudentNames(records)), UniqueSorted(SubjectCodes(records)))
    }
  }
}
