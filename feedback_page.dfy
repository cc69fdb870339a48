/**
 * The parent's and teacher's feedback page (`src/components/FeedbackPage.tsx`):
 * the records with their attempt histories, the learner history handed to the
 * message generator, the streak of consecutive study days, the feedback of one
 * record, and sending a comment. The database rows and the outcome of each
 * write are parameters; dates are day numbers.
 */
module FeedbackPage {
  import opened Wrappers
  import Text
  import Lists
  import Dates
  import opened Schema
  import opened Records
  import opened Messages

  // ---------------------------------------------------------------------------
  // Consecutive study days
  // ---------------------------------------------------------------------------

  /** The comparator `(a, b) => b - a` on day numbers: later days first. */
  predicate LaterFirst(a: int, b: int) {
    b - a <= 0
  }

  lemma LaterFirstIsPreorder()
    ensures Lists.TotalPreorder(LaterFirst)
  {
  }

  /** The number of leading days of `s` that follow each other one day apart, going back. */
  function LeadingRun(s: seq<int>): (n: nat)
    ensures n <= |s| && (s != [] ==> n >= 1)
  {
    if |s| <= 1 then |s|
    else if s[0] - s[1] == 1 then 1 + LeadingRun(s[1..])
    else 1
  }

  /** What `calculateContinuationDays(dates)` counts: the leading run of the dates sorted latest first. */
  function Continuation(dates: seq<int>): nat {
    LeadingRun(Lists.SortBy(dates, LaterFirst))
  }

  /** A run of `n` days one apart at the head of `s`, stopped by a gap or by the end, has length `n`. */
  lemma {:induction false} LeadingRunIs(s: seq<int>, n: nat)
    requires 1 <= n <= |s|
    requires forall k :: 1 <= k < n ==> s[k - 1] - s[k] == 1
    requires n < |s| ==> s[n - 1] - s[n] != 1
    ensures LeadingRun(s) == n
  {
    if n > 1 {
      assert s[0] - s[1] == 1;
      var t := s[1..];
      forall k | 1 <= k < n - 1 ensures t[k - 1] - t[k] == 1 {
        assert t[k - 1] == s[k] && t[k] == s[k + 1];
      }
      LeadingRunIs(t, n - 1);
    }
  }

  /**
   * `calculateContinuationDays(dates)`: 0 for no dates; otherwise the dates are
   * sorted latest first and counted from the first while each is one day before
   * the previous one.
   */
  method ContinuationDays(dates: seq<int>) returns (n: nat)
    ensures n == Continuation(dates)
  {
    if |dates| == 0 {
      return 0;
    }
    var sorted := Lists.SortBy(dates, LaterFirst);
    n := 1;
    var i := 1;
    while i < |sorted|
      invariant 1 <= i <= |sorted| && n == i
      invariant forall k :: 1 <= k < i ==> sorted[k - 1] - sorted[k] == 1
    {
      var diffDays := sorted[i - 1] - sorted[i];
      if diffDays == 1 {
        n := n + 1;
      } else {
        break;
      }
      i := i + 1;
    }
    LeadingRunIs(sorted, n);
  }

  /** The run is 0 exactly for no dates, and never longer than the list. */
  lemma ContinuationBounds(dates: seq<int>)
    ensures Continuation(dates) == 0 <==> dates == []
    ensures Continuation(dates) <= |dates|
  {
  }

  /** A run of `n` days one apart at the head of `s` counts down from `s[0]`. */
  lemma {:induction false} RunCountsDown(s: seq<int>, n: nat)
    requires n <= |s|
    requires forall k :: 1 <= k < n ==> s[k - 1] - s[k] == 1
    ensures forall k :: 0 <= k < n ==> s[k] == s[0] - k
  {
    if n > 1 {
      RunCountsDown(s, n - 1);
      assert s[n - 2] - s[n - 1] == 1;
    }
  }

  /** The leading run has its days one apart. */
  lemma {:induction false} LeadingRunSteps(s: seq<int>)
    ensures forall k :: 1 <= k < LeadingRun(s) ==> s[k - 1] - s[k] == 1
    ensures LeadingRun(s) < |s| ==> s[LeadingRun(s) - 1] - s[LeadingRun(s)] != 1
  {
    if |s| > 1 && s[0] - s[1] == 1 {
      var t := s[1..];
      LeadingRunSteps(t);
      forall k | 1 <= k < LeadingRun(s) ensures s[k - 1] - s[k] == 1 {
        if k > 1 {
          assert s[k - 1] == t[k - 2] && s[k] == t[k - 1];
        }
      }
    }
  }

  /** The dates sorted latest first: the first is the latest, and every date is among them. */
  lemma LatestFirst(dates: seq<int>)
    requires dates != []
    ensures var s := Lists.SortBy(dates, LaterFirst);
            Lists.SortedBy(s, LaterFirst) && multiset(s) == multiset(dates)
            && forall x :: x in dates ==> x <= s[0]
  {
    LaterFirstIsPreorder();
    Lists.SortBySorted(dates, LaterFirst);
    Lists.SortByHeadIsLeast(dates, LaterFirst);
  }

  /**
   * The run counts back from the latest date, not from today: the latest date
   * and the `n - 1` days before it all occur.
   */
  lemma ContinuationDaysOccur(dates: seq<int>)
    requires dates != []
    ensures var latest := Lists.SortBy(dates, LaterFirst)[0];
            forall d :: latest - Continuation(dates) < d <= latest ==> d in dates
  {
    var s := Lists.SortBy(dates, LaterFirst);
    var n := Continuation(dates);
    LeadingRunSteps(s);
    RunCountsDown(s, n);
    forall d | s[0] - n < d <= s[0] ensures d in dates {
      var k := s[0] - d;
      assert s[k] == d;
      assert s[k] in multiset(s);
    }
  }

  /** Sorted latest first and without repeats, the days strictly decrease. */
  lemma StrictlyLatestFirst(s: seq<int>)
    requires Lists.SortedBy(s, LaterFirst) && Lists.NoDuplicates(s)
    ensures forall i, j :: 0 <= i < j < |s| ==> s[i] > s[j]
  {
    forall i, j | 0 <= i < j < |s| ensures s[i] > s[j] {
      assert LaterFirst(s[i], s[j]);
    }
  }

  /** Days that strictly decrease, counting down one at a time for `n` days and then jumping further: the next day down is absent. */
  lemma RunThenGap(s: seq<int>, n: nat)
    requires 1 <= n <= |s|
    requires forall i, j :: 0 <= i < j < |s| ==> s[i] > s[j]
    requires forall k :: 0 <= k < n ==> s[k] == s[0] - k
    requires n < |s| ==> s[n - 1] - s[n] != 1
    ensures s[0] - n !in s
  {
    forall m | 0 <= m < |s| ensures s[m] != s[0] - n {
      if m < n {
        assert s[m] == s[0] - m;
      } else {
        assert s[n] <= s[n - 1] - 2;
        assert s[m] <= s[n];
      }
    }
  }

  /** In days sorted latest first without repeats, the day just below the leading run is absent. */
  lemma LeadingRunGap(s: seq<int>)
    requires s != [] && Lists.SortedBy(s, LaterFirst) && Lists.NoDuplicates(s)
    ensures s[0] - LeadingRun(s) !in s
  {
    StrictlyLatestFirst(s);
    LeadingRunSteps(s);
    RunCountsDown(s, LeadingRun(s));
    RunThenGap(s, LeadingRun(s));
  }

  /**
   * With distinct dates (as `new Set` gives), the run stops at a real gap: the day
   * before the run does not occur.
   */
  lemma ContinuationStopsAtGap(dates: seq<int>)
    requires Lists.NoDuplicates(dates) && dates != []
    ensures Lists.SortBy(dates, LaterFirst)[0] - Continuation(dates) !in dates
  {
    var s := Lists.SortBy(dates, LaterFirst);
    assert s[0] - LeadingRun(s) !in s by {
      LaterFirstIsPreorder();
      Lists.SortBySorted(dates, LaterFirst);
      Lists.PermutationKeepsNoDuplicates(s, dates);
      LeadingRunGap(s);
    }
    Lists.SameMembers(s, dates);
  }

  // ---------------------------------------------------------------------------
  // The history handed to the generator
  // ---------------------------------------------------------------------------

  /** A fetched record as the generator sees it; an empty comment counts as none. */
  function ToStudyData(r: StudyRecord): (d: StudyData)
    ensures d.comment.Some? <==> r.comment.Some? && r.comment.value != ""
    ensures d.comment.Some? ==> d.comment == r.comment
  {
    StudyData(r.subject, r.questionsTotal, r.questionsCorrect, r.emotion,
              if r.comment.Some? && r.comment.value != "" then r.comment else None,
              Dates.IsoDate(r.date))
  }

  /** `records.forEach(...)` summing correct and total answers per subject. */
  method SubjectAccuracy(records: seq<StudyRecord>) returns (acc: map<string, Tally>)
    ensures forall s :: s in acc <==> exists i :: 0 <= i < |records| && records[i].subject == s
    ensures forall s :: s in acc ==> acc[s] == SubjectTally(records, s)
  {
    acc := map[];
    for i := 0 to |records|
      invariant forall s :: s in acc <==> exists j :: 0 <= j < i && records[j].subject == s
      invariant forall s :: s in acc ==> acc[s] == SubjectTally(records[..i], s)
    {
      var r := records[i];
      assert records[..i + 1][..i] == records[..i];
      if r.subject !in acc {
        SubjectTallyAbsent(records[..i], r.subject);
        acc := acc[r.subject := Tally(0, 0)];
      }
      acc := acc[r.subject := Tally(acc[r.subject].correct + r.questionsCorrect, acc[r.subject].total + r.questionsTotal)];
    }
    assert records[..|records|] == records;
  }

  /** The history sent with an empty or failed fetch. */
  const EmptyHistory: StudyHistory := StudyHistory([], 0, 0, map[])

  /**
   * `getStudyHistoryData(recordId)`: `fetched` is the rows of the last thirty
   * days, latest first, or `Failed` when the query failed.
   */
  method StudyHistoryData(fetched: Result<seq<StudyRecord>>) returns (h: StudyHistory)
    ensures fetched.Failed? ==> h == EmptyHistory
    ensures fetched.Ok? ==>
              var rs := fetched.value;
              var uniqueDates := Lists.Distinct(RecordDates(rs));
              h.totalDays == |uniqueDates|
              && h.continuationDays == Continuation(uniqueDates)
              && |h.recentRecords| == (if |rs| < 5 then |rs| else 5)
              && (forall i :: 0 <= i < |h.recentRecords| ==> h.recentRecords[i] == ToStudyData(rs[i]))
              && (forall s :: s in h.subjectAccuracy <==> exists i :: 0 <= i < |rs| && rs[i].subject == s)
              && (forall s :: s in h.subjectAccuracy ==> h.subjectAccuracy[s] == SubjectTally(rs, s))
  {
    match fetched {
      case Failed =>
        return EmptyHistory;
      case Ok(rs) =>
        var uniqueDates := Lists.Distinct(RecordDates(rs));
        var continuationDays := ContinuationDays(uniqueDates);
        var subjectAccuracy := SubjectAccuracy(rs);
        var first := if |rs| < 5 then rs else rs[..5];
        var recentRecords := seq(|first|, i requires 0 <= i < |first| => ToStudyData(first[i]));
        h := StudyHistory(recentRecords, |uniqueDates|, continuationDays, subjectAccuracy);
    }
  }

  /** On valid rows every subject's sums are consistent, and the day counts fit the number of rows. */
  lemma StudyHistoryDataBounds(rs: seq<StudyRecord>, h: StudyHistory)
    requires AllValid(rs)
    requires h.totalDays == |Lists.Distinct(RecordDates(rs))|
    requires h.continuationDays == Continuation(Lists.Distinct(RecordDates(rs)))
    requires forall s :: s in h.subjectAccuracy ==> h.subjectAccuracy[s] == SubjectTally(rs, s)
    ensures 0 <= h.continuationDays <= h.totalDays <= |rs|
    ensures h.totalDays == 0 <==> rs == []
    ensures forall s :: s in h.subjectAccuracy ==> 0 <= h.subjectAccuracy[s].correct <= h.subjectAccuracy[s].total
  {
    var dates := RecordDates(rs);
    var unique := Lists.Distinct(dates);
    ContinuationBounds(unique);
    Lists.DistinctFacts(dates);
    Lists.DistinctNoLonger(dates);
    if rs != [] {
      assert dates[0] in unique;
    }
    forall s | s in h.subjectAccuracy ensures 0 <= h.subjectAccuracy[s].correct <= h.subjectAccuracy[s].total {
      SubjectTallyBounds(rs, s);
    }
  }

  // ---------------------------------------------------------------------------
  // Records with their histories, and the feedback of a record
  // ---------------------------------------------------------------------------

  /** A record with the history of its material. */
  datatype ExtendedRecord = ExtendedRecord(record: StudyRecord, history: seq<Attempt>)

  /** `processStudyRecords(records)`: every record, in order, with its history among the same rows. */
  method ProcessStudyRecords(records: seq<StudyRecord>) returns (r: seq<ExtendedRecord>)
    ensures |r| == |records|
    ensures forall i :: 0 <= i < |r| ==> r[i] == ExtendedRecord(records[i], AttemptHistory(records, records[i]))
  {
    r := [];
    for i := 0 to |records|
      invariant |r| == i
      invariant forall k :: 0 <= k < i ==> r[k] == ExtendedRecord(records[k], AttemptHistory(records, records[k]))
    {
      var history := AttemptHistory(records, records[i]);
      r := r + [ExtendedRecord(records[i], history)];
    }
  }

  /**
   * What the page shows beside each record: its own attempt is in its history,
   * the history runs in attempt order, and no line is dated after the record.
   */
  lemma ProcessedHistories(records: seq<StudyRecord>, r: seq<ExtendedRecord>)
    requires |r| == |records|
    requires forall i :: 0 <= i < |r| ==> r[i] == ExtendedRecord(records[i], AttemptHistory(records, records[i]))
    ensures forall i :: 0 <= i < |r| ==> r[i].record == records[i] && ToAttempt(records[i]) in r[i].history
    ensures forall i, j, k :: 0 <= i < |r| && 0 <= j < k < |r[i].history| ==> r[i].history[j].attempt <= r[i].history[k].attempt
    ensures forall i, j :: 0 <= i < |r| && 0 <= j < |r[i].history| ==> r[i].history[j].recordDate <= records[i].date
  {
    forall i | 0 <= i < |r|
      ensures ToAttempt(records[i]) in r[i].history
      ensures forall j, k :: 0 <= j < k < |r[i].history| ==> r[i].history[j].attempt <= r[i].history[k].attempt
      ensures forall j :: 0 <= j < |r[i].history| ==> r[i].history[j].recordDate <= records[i].date
    {
      OwnAttemptListed(records, records[i]);
      AttemptHistoryOrder(records, records[i]);
    }
  }

  /** `getRecordFeedbacks(recordId)`: the feedback about one record, in list order. */
  function RecordFeedbacks(feedbacks: seq<Feedback>, recordId: int): (r: seq<Feedback>)
    ensures forall f :: f in r <==> f in feedbacks && f.recordId == recordId
    ensures forall f :: multiset(r)[f] == if f.recordId == recordId then multiset(feedbacks)[f] else 0
  {
    Lists.FilterMembers(feedbacks, (f: Feedback) => f.recordId == recordId);
    Lists.FilterCounts(feedbacks, (f: Feedback) => f.recordId == recordId);
    Lists.Filter(feedbacks, (f: Feedback) => f.recordId == recordId)
  }

  // ---------------------------------------------------------------------------
  // Sending a comment
  // ---------------------------------------------------------------------------

  /** The row `sendComment` asks the database to insert. */
  datatype NewFeedback = NewFeedback(recordId: int, senderType: string, reactionType: Option<string>, message: Option<string>)

  const EnterComment: string := "コメントを入力してください"
  const SendFailed: string := "コメントの送信に失敗しました"

  /** The page state `sendComment` reads and writes. */
  class CommentForm {
    var feedbacks: seq<Feedback>
    var commentText: string
    var selectedRecord: Option<ExtendedRecord>
    var sending: bool
    var alert: Option<string>

    constructor (loaded: seq<Feedback>)
      ensures feedbacks == loaded && commentText == "" && selectedRecord == None && !sending && alert == None
    {
      feedbacks := loaded;
      commentText := "";
      selectedRecord := None;
      sending := false;
      alert := None;
    }

    /**
     * `sendComment(recordId)` by a sender of role `role`. `inserted` says whether
     * the database accepted the row and `now` is the clock (the temporary id and
     * the creation time); `request` is the row sent, `None` when nothing is sent.
     */
    method SendComment(recordId: int, role: string, inserted: bool, now: int) returns (request: Option<NewFeedback>)
      modifies this
      ensures Text.Trim(old(commentText)) == "" ==>
                request == None && alert == Some(EnterComment)
                && feedbacks == old(feedbacks) && commentText == old(commentText)
                && selectedRecord == old(selectedRecord) && sending == old(sending)
      ensures Text.Trim(old(commentText)) != "" ==>
                request == Some(NewFeedback(recordId, role, None, Some(Text.Trim(old(commentText))))) && !sending
      ensures Text.Trim(old(commentText)) != "" && inserted ==>
                feedbacks == [Feedback(now, recordId, role, None, Some(Text.Trim(old(commentText))), now)] + old(feedbacks)
                && commentText == "" && selectedRecord == None && alert == old(alert)
      ensures Text.Trim(old(commentText)) != "" && !inserted ==>
                feedbacks == old(feedbacks) && commentText == old(commentText)
                && selectedRecord == old(selectedRecord) && alert == Some(SendFailed)
    {
      var message := Text.Trim(commentText);
      if message == "" {
        alert := Some(EnterComment);
        return None;
      }
      sending := true;
      request := Some(NewFeedback(recordId, role, None, Some(message)));
      if inserted {
        var newFeedback := Feedback(now, recordId, role, None, Some(message), now);
        feedbacks := [newFeedback] + feedbacks;
        commentText := "";
        selectedRecord := None;
      } else {
        alert := Some(SendFailed);
      }
      sending := false;
    }
  }

  /**
   * A sent comment is a row the `feedbacks` table accepts when the sender is a
   * known role and the text is short enough, and it heads the record's feedback list.
   */
  lemma SentCommentHeadsFeedback(feedbacks: seq<Feedback>, recordId: int, role: string, message: string, now: int)
    requires role in Senders && |message| <= 500
    ensures var f := Feedback(now, recordId, role, None, Some(message), now);
            ValidFeedback(f)
            && RecordFeedbacks([f] + feedbacks, recordId) == [f] + RecordFeedbacks(feedbacks, recordId)
  {
    var f := Feedback(now, recordId, role, None, Some(message), now);
    Lists.FilterPrepend(f, feedbacks, (g: Feedback) => g.recordId == recordId);
  }
}
