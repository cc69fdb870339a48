/**
 * What the dashboard and the feedback page both compute from study records:
 * the history of attempts at the same material (`Dashboard.tsx` and
 * `FeedbackPage.tsx` build it with the same filter, sort and map), its
 * one-line display, and the per-subject sums of questions.
 */
module Records {
  import opened Wrappers
  import Text
  import Lists
  import Percent
  import opened Schema
  import Messages

  /** One attempt as a history line shows it. */
  datatype Attempt = Attempt(attempt: int, correct: int, total: int, accuracy: Percent.Number, recordDate: int, emotion: string)

  /** Two records are about the same material: same study date, subject and content type. */
  predicate SameMaterial(a: StudyRecord, b: StudyRecord) {
    a.studyDate == b.studyDate && a.subject == b.subject && a.contentType == b.contentType
  }

  /** `r` belongs to the history shown beside `rec`: same material, written no later. */
  predicate InHistoryOf(r: StudyRecord, rec: StudyRecord) {
    SameMaterial(r, rec) && r.date <= rec.date
  }

  /** The comparator `(a, b) => a.attempt_number - b.attempt_number`. */
  predicate ByAttempt(a: StudyRecord, b: StudyRecord) {
    a.attemptNumber <= b.attemptNumber
  }

  lemma ByAttemptIsPreorder()
    ensures Lists.TotalPreorder(ByAttempt)
  {
  }

  /** The records of `rec`'s history: filtered from `all`, then sorted by attempt number. */
  function HistoryRecords(all: seq<StudyRecord>, rec: StudyRecord): (rs: seq<StudyRecord>)
    ensures |rs| <= |all|
  {
    Lists.SortBy(Lists.Filter(all, r => InHistoryOf(r, rec)), ByAttempt)
  }

  /** The history holds every record of the same material written no later, each as often as `all` does, in attempt order. */
  lemma HistoryRecordsFacts(all: seq<StudyRecord>, rec: StudyRecord)
    ensures forall x :: multiset(HistoryRecords(all, rec))[x] == if InHistoryOf(x, rec) then multiset(all)[x] else 0
    ensures Lists.SortedBy(HistoryRecords(all, rec), ByAttempt)
  {
    ByAttemptIsPreorder();
    var kept := Lists.Filter(all, r => InHistoryOf(r, rec));
    Lists.FilterCounts(all, r => InHistoryOf(r, rec));
    Lists.SortBySorted(kept, ByAttempt);
  }

  /** Every record of a history belongs to it. */
  lemma HistoryRecordsBelong(all: seq<StudyRecord>, rec: StudyRecord)
    ensures forall i :: 0 <= i < |HistoryRecords(all, rec)| ==>
              HistoryRecords(all, rec)[i] in all && InHistoryOf(HistoryRecords(all, rec)[i], rec)
  {
    var rs := HistoryRecords(all, rec);
    HistoryRecordsFacts(all, rec);
    forall i | 0 <= i < |rs| ensures rs[i] in all && InHistoryOf(rs[i], rec) {
      assert rs[i] in multiset(rs);
      assert rs[i] in multiset(all);
    }
  }

  /** A record as a history line. */
  function ToAttempt(r: StudyRecord): Attempt {
    Attempt(r.attemptNumber, r.questionsCorrect, r.questionsTotal,
            Percent.Accuracy(r.questionsCorrect, r.questionsTotal), r.date, r.emotion)
  }

  /** The `history` attached to a record. */
  function AttemptHistory(all: seq<StudyRecord>, rec: StudyRecord): (h: seq<Attempt>)
    ensures |h| == |HistoryRecords(all, rec)|
  {
    var rs := HistoryRecords(all, rec);
    seq(|rs|, i requires 0 <= i < |rs| => ToAttempt(rs[i]))
  }

  /** A history runs in attempt order, and no line is dated after the record it is shown beside. */
  lemma AttemptHistoryOrder(all: seq<StudyRecord>, rec: StudyRecord)
    ensures var h := AttemptHistory(all, rec);
            (forall i, j :: 0 <= i < j < |h| ==> h[i].attempt <= h[j].attempt)
            && (forall i :: 0 <= i < |h| ==> h[i].recordDate <= rec.date)
  {
    HistoryRecordsFacts(all, rec);
    HistoryRecordsBelong(all, rec);
  }

  /** Line `i` of a history shows record `i` of the history's records: one of the same material written no later. */
  lemma HistoryLinesComeFromRecords(all: seq<StudyRecord>, rec: StudyRecord)
    ensures var h := AttemptHistory(all, rec); var rs := HistoryRecords(all, rec);
            forall i :: 0 <= i < |h| ==> rs[i] in all && InHistoryOf(rs[i], rec) && h[i] == ToAttempt(rs[i])
  {
    HistoryRecordsBelong(all, rec);
  }

  /** A record always finds itself in its own history. */
  lemma OwnAttemptListed(all: seq<StudyRecord>, rec: StudyRecord)
    requires rec in all
    ensures ToAttempt(rec) in AttemptHistory(all, rec)
  {
    var rs := HistoryRecords(all, rec);
    HistoryRecordsFacts(all, rec);
    assert rec in multiset(all);
    assert rec in multiset(rs);
    var i :| 0 <= i < |rs| && rs[i] == rec;
    assert AttemptHistory(all, rec)[i] == ToAttempt(rec);
  }

  /** One history item, `(${correct}/${total})`. */
  function HistoryItem(a: Attempt): string {
    "(" + Text.IntToString(a.correct) + "/" + Text.IntToString(a.total) + ")"
  }

  /** `formatHistoryDisplay(history)`. */
  function FormatHistoryDisplay(h: seq<Attempt>): string {
    if |h| <= 1 then ""
    else Text.Join(seq(|h|, i requires 0 <= i < |h| => HistoryItem(h[i])), " → ")
  }

  /** A single attempt shows nothing; otherwise the text runs from the first attempt's item to the last one's. */
  lemma FormatHistoryEnds(h: seq<Attempt>)
    ensures |h| <= 1 <==> FormatHistoryDisplay(h) == ""
    ensures |h| > 1 ==> Text.StartsWith(FormatHistoryDisplay(h), HistoryItem(h[0]))
    ensures |h| > 1 ==> var s := FormatHistoryDisplay(h); var last := HistoryItem(h[|h| - 1]);
                        |last| <= |s| && s[|s| - |last|..] == last
  {
    if |h| > 1 {
      var items := seq(|h|, i requires 0 <= i < |h| => HistoryItem(h[i]));
      Text.JoinEnds(items, " → ");
      assert |HistoryItem(h[0])| > 0;
    }
  }

  /** The record dates, in record order. */
  function RecordDates(records: seq<StudyRecord>): (ds: seq<int>)
    ensures |ds| == |records| && forall i :: 0 <= i < |ds| ==> ds[i] == records[i].date
  {
    seq(|records|, i requires 0 <= i < |records| => records[i].date)
  }

  // ---------------------------------------------------------------------------
  // Per-subject sums
  // ---------------------------------------------------------------------------

  /** The sums of correct and total answers over the records of one subject. */
  function SubjectTally(rs: seq<StudyRecord>, subject: string): Messages.Tally {
    if rs == [] then Messages.Tally(0, 0)
    else
      var t := SubjectTally(rs[..|rs| - 1], subject);
      var r := rs[|rs| - 1];
      if r.subject == subject then Messages.Tally(t.correct + r.questionsCorrect, t.total + r.questionsTotal)
      else t
  }

  /** A subject without records sums to zero. */
  lemma {:induction false} SubjectTallyAbsent(rs: seq<StudyRecord>, subject: string)
    requires forall i :: 0 <= i < |rs| ==> rs[i].subject != subject
    ensures SubjectTally(rs, subject) == Messages.Tally(0, 0)
  {
    if rs != [] {
      SubjectTallyAbsent(rs[..|rs| - 1], subject);
    }
  }

  /**
   * On rows that meet the table's constraints the sums are consistent
   * (0 <= correct <= total), and a subject has questions exactly when it has a record.
   */
  lemma {:induction false} SubjectTallyBounds(rs: seq<StudyRecord>, subject: string)
    requires AllValid(rs)
    ensures 0 <= SubjectTally(rs, subject).correct <= SubjectTally(rs, subject).total
    ensures SubjectTally(rs, subject).total > 0 <==> exists i :: 0 <= i < |rs| && rs[i].subject == subject
  {
    if rs != [] {
      var init := rs[..|rs| - 1];
      assert AllValid(init) by {
        forall i | 0 <= i < |init| ensures ValidRecord(init[i]) {
          assert init[i] == rs[i];
        }
      }
      SubjectTallyBounds(init, subject);
      assert ValidRecord(rs[|rs| - 1]);
      if exists i :: 0 <= i < |rs| && rs[i].subject == subject {
        var i :| 0 <= i < |rs| && rs[i].subject == subject;
        if i < |rs| - 1 {
          assert init[i] == rs[i];
        }
      }
      if exists i :: 0 <= i < |init| && init[i].subject == subject {
        var i :| 0 <= i < |init| && init[i].subject == subject;
        assert rs[i] == init[i];
      }
    }
  }
}
