/**
 * The learner's history page (`src/components/HistoryPage.tsx`): every study
 * record joined with its feedback, the subject filter and the three sort keys,
 * the sort toggle and its icons, the label maps of the cards, and the feedback
 * timeline. The two table reads are parameters.
 */
module HistoryPage {
  import opened Wrappers
  import Lists
  import opened Schema
  import ObjectLiteral

  /** A record with the feedback given on it. */
  datatype HistoryRecord = HistoryRecord(record: StudyRecord, feedbacks: seq<Feedback>)

  datatype SortType = ByDate | ByAccuracy | ByEmotion
  datatype SortOrder = Asc | Desc
  datatype SubjectFilter = AllSubjects | OnlySubject(subject: string)

  // ---------------------------------------------------------------------------
  // Joining records and feedback
  // ---------------------------------------------------------------------------

  /** `feedbacks.filter(feedback => feedback.record_id === recordId)`. */
  function FeedbacksOf(feedbacks: seq<Feedback>, recordId: int): seq<Feedback> {
    Lists.Filter(feedbacks, (f: Feedback) => f.recordId == recordId)
  }

  /** `studyRecords.map(record => ({ record, feedbacks: ... }))`. */
  function Combine(records: seq<StudyRecord>, feedbacks: seq<Feedback>): (data: seq<HistoryRecord>)
    ensures |data| == |records|
  {
    seq(|records|, i requires 0 <= i < |records| => HistoryRecord(records[i], FeedbacksOf(feedbacks, records[i].id)))
  }

  /**
   * The join keeps the records in their order and pairs each with exactly the
   * feedback on its id, every such row as often as the table holds it.
   */
  lemma CombinePairs(records: seq<StudyRecord>, feedbacks: seq<Feedback>, i: nat)
    requires i < |records|
    ensures var item := Combine(records, feedbacks)[i];
            item.record == records[i]
            && (forall f :: f in item.feedbacks <==> f in feedbacks && f.recordId == records[i].id)
            && (forall f :: multiset(item.feedbacks)[f] == if f.recordId == records[i].id then multiset(feedbacks)[f] else 0)
  {
    Lists.FilterMembers(feedbacks, (f: Feedback) => f.recordId == records[i].id);
    Lists.FilterCounts(feedbacks, (f: Feedback) => f.recordId == records[i].id);
  }

  // ---------------------------------------------------------------------------
  // Filtering and sorting
  // ---------------------------------------------------------------------------

  /** The subject filter: `'all'` keeps everything, a subject keeps its records. */
  function FilterBySubject(data: seq<HistoryRecord>, filter: SubjectFilter): seq<HistoryRecord> {
    match filter
    case AllSubjects => data
    case OnlySubject(s) => Lists.Filter(data, (item: HistoryRecord) => item.record.subject == s)
  }

  /** Filtering by a subject keeps exactly the items of that subject, each as often as before, in order. */
  lemma FilterBySubjectKeeps(data: seq<HistoryRecord>, filter: SubjectFilter)
    ensures filter == AllSubjects ==> FilterBySubject(data, filter) == data
    ensures filter.OnlySubject? ==>
              forall x :: multiset(FilterBySubject(data, filter))[x] ==
                          if x.record.subject == filter.subject then multiset(data)[x] else 0
    ensures forall x :: x in FilterBySubject(data, filter) <==>
              x in data && (filter.AllSubjects? || x.record.subject == filter.subject)
  {
    if filter.OnlySubject? {
      Lists.FilterCounts(data, (item: HistoryRecord) => item.record.subject == filter.subject);
      Lists.FilterMembers(data, (item: HistoryRecord) => item.record.subject == filter.subject);
    }
  }

  /** The emotion key `{ hard: 0, normal: 1, good: 2 }`. */
  function EmotionRank(e: string): int {
    if e == "hard" then 0 else if e == "normal" then 1 else if e == "good" then 2 else -1
  }

  /**
   * The number each sort key compares: the study day, the percentage of correct
   * answers, or the emotion rank. A total of 0 and an unknown emotion, which the
   * table's CHECK constraints exclude, get a key of their own instead of `NaN`.
   */
  function Key(r: StudyRecord, t: SortType): real {
    match t
    case ByDate => r.studyDate as real
    case ByAccuracy =>
      if r.questionsTotal != 0 then (r.questionsCorrect as real / r.questionsTotal as real) * 100.0 else 0.0
    case ByEmotion => EmotionRank(r.emotion) as real
  }

  /** The comparator's value: `compareValue` for `'asc'`, `-compareValue` for `'desc'`. */
  function CompareValue(a: HistoryRecord, b: HistoryRecord, t: SortType, o: SortOrder): real {
    if o == Asc then Key(a.record, t) - Key(b.record, t) else Key(b.record, t) - Key(a.record, t)
  }

  /** `a` may stay before `b`: the comparator does not put `b` first. */
  function SortLe(t: SortType, o: SortOrder): (HistoryRecord, HistoryRecord) -> bool {
    (a: HistoryRecord, b: HistoryRecord) => CompareValue(a, b, t, o) <= 0.0
  }

  lemma SortLeIsPreorder(t: SortType, o: SortOrder)
    ensures Lists.TotalPreorder(SortLe(t, o))
  {
  }

  /** `getFilteredAndSortedData()`. */
  function FilteredAndSorted(data: seq<HistoryRecord>, filter: SubjectFilter, t: SortType, o: SortOrder): seq<HistoryRecord> {
    Lists.SortBy(FilterBySubject(data, filter), SortLe(t, o))
  }

  /** The result is a permutation of the filtered items, in ascending key order for `'asc'` and descending for `'desc'`. */
  lemma FilteredAndSortedFacts(data: seq<HistoryRecord>, filter: SubjectFilter, t: SortType, o: SortOrder)
    ensures var r := FilteredAndSorted(data, filter, t, o);
            multiset(r) == multiset(FilterBySubject(data, filter))
            && (o == Asc ==> forall i, j :: 0 <= i < j < |r| ==> Key(r[i].record, t) <= Key(r[j].record, t))
            && (o == Desc ==> forall i, j :: 0 <= i < j < |r| ==> Key(r[i].record, t) >= Key(r[j].record, t))
  {
    var r := FilteredAndSorted(data, filter, t, o);
    SortLeIsPreorder(t, o);
    Lists.SortBySorted(FilterBySubject(data, filter), SortLe(t, o));
    forall i, j | 0 <= i < j < |r| ensures CompareValue(r[i], r[j], t, o) <= 0.0 {
      assert SortLe(t, o)(r[i], r[j]);
    }
  }

  /** The date key orders by study day. */
  lemma DateKeyOrder(a: StudyRecord, b: StudyRecord)
    ensures Key(a, ByDate) <= Key(b, ByDate) <==> a.studyDate <= b.studyDate
  {
  }

  /** With positive totals the accuracy key orders by the ratio of correct answers (cross-multiplied). */
  lemma AccuracyKeyOrder(a: StudyRecord, b: StudyRecord)
    requires a.questionsTotal > 0 && b.questionsTotal > 0
    ensures Key(a, ByAccuracy) <= Key(b, ByAccuracy) <==>
              a.questionsCorrect * b.questionsTotal <= b.questionsCorrect * a.questionsTotal
  {
    var ca, ta := a.questionsCorrect as real, a.questionsTotal as real;
    var cb, tb := b.questionsCorrect as real, b.questionsTotal as real;
    assert ca / ta <= cb / tb <==> ca * tb <= cb * ta by {
      assert ca / ta * (ta * tb) == ca * tb;
      assert cb / tb * (ta * tb) == cb * ta;
    }
    assert (a.questionsCorrect * b.questionsTotal) as real == ca * tb;
    assert (b.questionsCorrect * a.questionsTotal) as real == cb * ta;
  }

  /** The emotion key puts hard before normal before good. */
  lemma EmotionKeyOrder()
    ensures forall r: StudyRecord, s: StudyRecord :: r.emotion == "hard" && s.emotion == "normal" ==> Key(r, ByEmotion) < Key(s, ByEmotion)
    ensures forall r: StudyRecord, s: StudyRecord :: r.emotion == "normal" && s.emotion == "good" ==> Key(r, ByEmotion) < Key(s, ByEmotion)
  {
  }

  // ---------------------------------------------------------------------------
  // The page's state
  // ---------------------------------------------------------------------------

  const LoadFailed: string := "履歴データの読み込みに失敗しました。"

  class HistoryView {
    var historyData: seq<HistoryRecord>
    var error: Option<string>
    var subjectFilter: SubjectFilter
    var sortType: SortType
    var sortOrder: SortOrder

    constructor ()
      ensures historyData == [] && error == None
      ensures subjectFilter == AllSubjects && sortType == ByDate && sortOrder == Desc
    {
      historyData := [];
      error := None;
      subjectFilter := AllSubjects;
      sortType := ByDate;
      sortOrder := Desc;
    }

    /**
     * `loadHistoryData()`: `records` and `feedbacks` are the two reads, `Failed`
     * when a read reports an error (the feedback read is not made after a failed
     * record read).
     */
    method LoadHistoryData(records: Result<seq<StudyRecord>>, feedbacks: Result<seq<Feedback>>)
      modifies this
      ensures records.Ok? && feedbacks.Ok? ==> historyData == Combine(records.value, feedbacks.value) && error == None
      ensures records.Failed? || feedbacks.Failed? ==> historyData == old(historyData) && error == Some(LoadFailed)
      ensures subjectFilter == old(subjectFilter) && sortType == old(sortType) && sortOrder == old(sortOrder)
    {
      error := None;
      if records.Failed? || feedbacks.Failed? {
        error := Some(LoadFailed);
        return;
      }
      historyData := Combine(records.value, feedbacks.value);
    }

    /** `toggleSort(type)`: the same key flips the order; another key is chosen with order `'desc'`. */
    method ToggleSort(t: SortType)
      modifies this
      ensures old(sortType) == t ==> sortType == t && sortOrder == (if old(sortOrder) == Asc then Desc else Asc)
      ensures old(sortType) != t ==> sortType == t && sortOrder == Desc
      ensures historyData == old(historyData) && error == old(error) && subjectFilter == old(subjectFilter)
    {
      if sortType == t {
        sortOrder := if sortOrder == Asc then Desc else Asc;
      } else {
        sortType := t;
        sortOrder := Desc;
      }
    }

    /** `getSortIcon(type)`. */
    function SortIcon(t: SortType): (icon: string)
      reads this
      ensures icon == "↕️" <==> sortType != t
      ensures icon == "↑" <==> sortType == t && sortOrder == Asc
      ensures icon == "↓" <==> sortType == t && sortOrder == Desc
    {
      if sortType != t then "↕️"
      else match sortOrder
        case Asc => "↑"
        case Desc => "↓"
    }
  }

  // ---------------------------------------------------------------------------
  // Labels of a card
  // ---------------------------------------------------------------------------

  const SubjectLabels: map<string, string> :=
    map["aptitude" := "適性検査", "japanese" := "国語", "math" := "算数", "science" := "理科", "social" := "社会"]

  const SubjectIcons: map<string, string> :=
    map["aptitude" := "🎯", "japanese" := "✍️", "math" := "🔢", "science" := "🧪", "social" := "🌍"]

  const EmotionLabels: map<string, string> :=
    map["good" := "😊 よくできた", "normal" := "😐 ふつう", "hard" := "😵 むずかしかった"]

  /** `getSubjectLabel(subject)`, read from the table's own keys. */
  function SubjectLabel(s: string): string {
    ObjectLiteral.OwnOr(SubjectLabels, s, s)
  }

  /** `getSubjectIcon(subject)`, read from the table's own keys. */
  function SubjectIcon(s: string): string {
    ObjectLiteral.OwnOr(SubjectIcons, s, "📚")
  }

  /** `getContentTypeLabel(type)`. */
  function ContentTypeLabel(t: string): string {
    if t == "class" then "授業" else "宿題"
  }

  /** `getEmotionLabel(emotion)`, read from the table's own keys. */
  function EmotionLabel(e: string): string {
    ObjectLiteral.OwnOr(EmotionLabels, e, e)
  }

  /**
   * The five subjects get five different labels and icons, none of them the
   * default book; any other code is shown as it is, with the book. The reads as
   * written agree, except that they answer a name every object inherits with
   * that inherited member, which is no string.
   */
  lemma SubjectLabelCases(code: string)
    ensures forall i, j :: 0 <= i < j < 5 ==> SubjectLabel(Subjects[i]) != SubjectLabel(Subjects[j])
    ensures forall i, j :: 0 <= i < j < 5 ==> SubjectIcon(Subjects[i]) != SubjectIcon(Subjects[j])
    ensures forall i :: 0 <= i < 5 ==> SubjectIcon(Subjects[i]) != "📚"
    ensures code !in Subjects ==> SubjectLabel(code) == code && SubjectIcon(code) == "📚"
    ensures code !in ObjectLiteral.Inherited ==>
              ObjectLiteral.ReadOr(SubjectLabels, code, code) == ObjectLiteral.Str(SubjectLabel(code))
              && ObjectLiteral.ReadOr(SubjectIcons, code, "📚") == ObjectLiteral.Str(SubjectIcon(code))
    ensures code in ObjectLiteral.Inherited ==>
              ObjectLiteral.ReadOr(SubjectLabels, code, code) == ObjectLiteral.InheritedMember(code)
              && ObjectLiteral.ReadOr(SubjectIcons, code, "📚") == ObjectLiteral.InheritedMember(code)
  {
  }

  /**
   * Lessons are 授業 and everything else 宿題; the three feelings get three
   * labels, and other codes pass through, except that the read as written
   * answers a name every object inherits with that inherited member.
   */
  lemma OtherLabelCases(t: string, e: string)
    ensures ContentTypeLabel(t) == "授業" <==> t == "class"
    ensures ContentTypeLabel(t) == "宿題" <==> t != "class"
    ensures forall i, j :: 0 <= i < j < 3 ==> EmotionLabel(Emotions[i]) != EmotionLabel(Emotions[j])
    ensures e !in Emotions ==> EmotionLabel(e) == e
    ensures e !in ObjectLiteral.Inherited ==> ObjectLiteral.ReadOr(EmotionLabels, e, e) == ObjectLiteral.Str(EmotionLabel(e))
    ensures e in ObjectLiteral.Inherited ==> ObjectLiteral.ReadOr(EmotionLabels, e, e) == ObjectLiteral.InheritedMember(e)
  {
  }

  /** The text of one feedback: its message, or else a word for its reaction. */
  function FeedbackText(f: Feedback): (text: string)
    ensures f.message.Some? && f.message.value != "" ==> text == f.message.value
  {
    if f.message.Some? && f.message.value != "" then f.message.value
    else if f.reactionType == Some("clap") then "すごい！"
    else if f.reactionType == Some("thumbs") then "いいね！"
    else if f.reactionType == Some("muscle") then "頑張って！"
    else ""
  }

  /** A feedback the table accepts never shows an empty text unless its message is empty and it has no reaction. */
  lemma FeedbackTextOfValid(f: Feedback)
    requires ValidFeedback(f)
    ensures FeedbackText(f) == "" <==> (f.message.None? || f.message.value == "") && f.reactionType.None?
  {
  }

  // ---------------------------------------------------------------------------
  // The feedback timeline
  // ---------------------------------------------------------------------------

  /** `historyData.flatMap(item => item.feedbacks.map(feedback => ({ feedback, record: item.record })))`. */
  function Flatten(data: seq<HistoryRecord>): seq<(Feedback, StudyRecord)> {
    if data == [] then []
    else
      var last := data[|data| - 1];
      Flatten(data[..|data| - 1]) + seq(|last.feedbacks|, k requires 0 <= k < |last.feedbacks| => (last.feedbacks[k], last.record))
  }

  /** The number of feedbacks over all items. */
  function FeedbackCount(data: seq<HistoryRecord>): nat {
    if data == [] then 0 else FeedbackCount(data[..|data| - 1]) + |data[|data| - 1].feedbacks|
  }

  /** One entry per feedback, each paired with the record it was given on. */
  lemma {:induction false} FlattenFacts(data: seq<HistoryRecord>)
    ensures |Flatten(data)| == FeedbackCount(data)
    ensures forall f, r :: (f, r) in Flatten(data) ==> exists i :: 0 <= i < |data| && data[i].record == r && f in data[i].feedbacks
  {
    if data != [] {
      var init := data[..|data| - 1];
      var last := data[|data| - 1];
      FlattenFacts(init);
      var tail := seq(|last.feedbacks|, k requires 0 <= k < |last.feedbacks| => (last.feedbacks[k], last.record));
      forall f, r | (f, r) in Flatten(data)
        ensures exists i :: 0 <= i < |data| && data[i].record == r && f in data[i].feedbacks
      {
        if (f, r) in Flatten(init) {
          var i :| 0 <= i < |init| && init[i].record == r && f in init[i].feedbacks;
          assert data[i] == init[i];
        } else {
          assert (f, r) in tail;
          var k :| 0 <= k < |tail| && tail[k] == (f, r);
          assert data[|data| - 1].record == r && f in data[|data| - 1].feedbacks;
        }
      }
    }
  }

  /** Every feedback of every item is in the flattened list. */
  lemma {:induction false} FlattenComplete(data: seq<HistoryRecord>, i: nat, f: Feedback)
    requires i < |data| && f in data[i].feedbacks
    ensures (f, data[i].record) in Flatten(data)
  {
    var init := data[..|data| - 1];
    var last := data[|data| - 1];
    var tail := seq(|last.feedbacks|, k requires 0 <= k < |last.feedbacks| => (last.feedbacks[k], last.record));
    if i < |data| - 1 {
      assert init[i] == data[i];
      FlattenComplete(init, i, f);
    } else {
      var k :| 0 <= k < |last.feedbacks| && last.feedbacks[k] == f;
      assert tail[k] == (f, data[i].record);
    }
  }

  /** The comparator `b.created_at - a.created_at`: newer feedback first. */
  predicate NewerFirst(a: (Feedback, StudyRecord), b: (Feedback, StudyRecord)) {
    b.0.createdAt - a.0.createdAt <= 0
  }

  /** The feedback tab's list. */
  function FeedbackTimeline(data: seq<HistoryRecord>): seq<(Feedback, StudyRecord)> {
    Lists.SortBy(Flatten(data), NewerFirst)
  }

  /** The timeline holds the flattened entries, newest first. */
  lemma FeedbackTimelineFacts(data: seq<HistoryRecord>)
    ensures var r := FeedbackTimeline(data);
            multiset(r) == multiset(Flatten(data)) && |r| == FeedbackCount(data)
            && forall i, j :: 0 <= i < j < |r| ==> r[i].0.createdAt >= r[j].0.createdAt
  {
    FlattenFacts(data);
    assert Lists.TotalPreorder(NewerFirst);
    Lists.SortBySorted(Flatten(data), NewerFirst);
  }
}
