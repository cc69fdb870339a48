/**
 * The learner's dashboard (`src/components/Dashboard.tsx`): today's cards with
 * their attempt histories, the streak of days up to today, the per-subject
 * totals, the dominant feeling of the last five study days and the milestone
 * text. "Today" is a parameter; dates are day numbers.
 */
module Dashboard {
  import opened Wrappers
  import Lists
  import Percent
  import opened Schema
  import opened Records

  // ---------------------------------------------------------------------------
  // Streak up to today
  // ---------------------------------------------------------------------------

  /** Some record was written on day `d`. */
  predicate HasRecordOn(records: seq<StudyRecord>, d: int) {
    exists i :: 0 <= i < |records| && records[i].date == d
  }

  /**
   * `calculateContinueDays(records)`: the number of consecutive days, counting
   * back from `today`, that each have a record.
   */
  method ContinueDays(records: seq<StudyRecord>, today: int) returns (days: nat)
    ensures forall d :: today - days < d <= today ==> HasRecordOn(records, d)
    ensures !HasRecordOn(records, today - days)
  {
    if |records| == 0 {
      return 0;
    }
    var dates: set<int> := {};
    for i := 0 to |records|
      invariant forall d :: d in dates <==> exists j :: 0 <= j < i && records[j].date == d
    {
      dates := dates + {records[i].date};
    }
    assert forall d :: d in dates ==> HasRecordOn(records, d);
    days := 0;
    var current := today;
    ghost var counted: set<int> := {};
    while current in dates
      invariant current == today - days
      invariant forall d :: current < d <= today ==> d in dates
      invariant counted <= dates && |counted| == days
      invariant forall x :: x in counted ==> x > current
      decreases |dates| - |counted|
    {
      Lists.SubsetCard(counted + {current}, dates);
      counted := counted + {current};
      days := days + 1;
      current := current - 1;
    }
  }

  /** A streak of zero for an empty history, and only then when today itself has no record. */
  lemma ContinueDaysZero(records: seq<StudyRecord>, today: int, days: nat)
    requires forall d :: today - days < d <= today ==> HasRecordOn(records, d)
    requires !HasRecordOn(records, today - days)
    ensures days == 0 <==> !HasRecordOn(records, today)
  {
  }

  // ---------------------------------------------------------------------------
  // Per-subject statistics
  // ---------------------------------------------------------------------------

  /** A subject card: its code, label, totals, rounded accuracy, icon and colour. */
  datatype SubjectStat = SubjectStat(subject: string, subjectLabel: string, totalQuestions: int, totalCorrect: int,
                                     accuracy: int, icon: string, color: string)

  /** The subjects in the order the cards are shown. */
  const Catalog: seq<(string, string, string, string)> := [
    ("aptitude", "適性", "🧠", "from-purple-400 to-purple-600"),
    ("japanese", "国語", "📚", "from-rose-400 to-rose-600"),
    ("math", "算数", "🔢", "from-blue-400 to-blue-600"),
    ("science", "理科", "🔬", "from-green-400 to-green-600"),
    ("social", "社会", "🌍", "from-amber-400 to-amber-600")]

  /** The position of a subject code in `Catalog`, or 5 for any other code. */
  function CatalogIndex(subject: string): (k: nat)
    ensures k <= 5
    ensures k < 5 ==> Catalog[k].0 == subject
    ensures k == 5 ==> forall j :: 0 <= j < 5 ==> Catalog[j].0 != subject
  {
    if subject == "aptitude" then 0
    else if subject == "japanese" then 1
    else if subject == "math" then 2
    else if subject == "science" then 3
    else if subject == "social" then 4
    else 5
  }

  /** The card of the `k`-th subject before the filter on questions. */
  function StatFor(records: seq<StudyRecord>, k: nat): SubjectStat
    requires k < 5
  {
    var (key, name, icon, color) := Catalog[k];
    var t := SubjectTally(records, key);
    SubjectStat(key, name, t.total, t.correct,
                if t.total > 0 then Percent.RoundPercent(t.correct, t.total) else 0, icon, color)
  }

  /** `subjects.map(...)`: the five cards in catalogue order, before the filter. */
  function AllStats(records: seq<StudyRecord>): (cards: seq<SubjectStat>)
    ensures |cards| == 5
  {
    seq(5, k requires 0 <= k < 5 => StatFor(records, k))
  }

  /** `calculateSubjectStats(records)`: the cards with questions. */
  function SubjectStats(records: seq<StudyRecord>): seq<SubjectStat> {
    Lists.Filter(AllStats(records), (st: SubjectStat) => st.totalQuestions > 0)
  }

  lemma CatalogIndexOf(j: nat)
    requires j < 5
    ensures CatalogIndex(Catalog[j].0) == j
  {
  }

  /** A card is listed exactly when it is the card of one of the five subjects and has questions. */
  lemma SubjectStatsMembers(records: seq<StudyRecord>)
    ensures forall st :: st in SubjectStats(records) <==>
              st.totalQuestions > 0 && CatalogIndex(st.subject) < 5 && st == StatFor(records, CatalogIndex(st.subject))
  {
    var all := AllStats(records);
    Lists.FilterMembers(all, (st: SubjectStat) => st.totalQuestions > 0);
    forall st ensures st in all <==> CatalogIndex(st.subject) < 5 && st == StatFor(records, CatalogIndex(st.subject)) {
      if st in all {
        var k :| 0 <= k < 5 && all[k] == st;
        CatalogIndexOf(k);
      }
      if CatalogIndex(st.subject) < 5 && st == StatFor(records, CatalogIndex(st.subject)) {
        assert all[CatalogIndex(st.subject)] == st;
      }
    }
  }

  /** Catalogue order between two cards. */
  predicate CatalogBefore(a: SubjectStat, b: SubjectStat) {
    CatalogIndex(a.subject) < CatalogIndex(b.subject)
  }

  /** The cards follow the catalogue order, each subject at most once. */
  lemma SubjectStatsOrder(records: seq<StudyRecord>)
    ensures var r := SubjectStats(records);
            forall i, j :: 0 <= i < j < |r| ==> CatalogIndex(r[i].subject) < CatalogIndex(r[j].subject)
  {
    var all := AllStats(records);
    forall i, j | 0 <= i < j < 5 ensures CatalogBefore(all[i], all[j]) {
      CatalogIndexOf(i);
      CatalogIndexOf(j);
    }
    Lists.FilterKeepsSorted(all, (st: SubjectStat) => st.totalQuestions > 0, CatalogBefore);
  }

  /** The card of one subject, before the filter: the subject's sums and, when it has questions, their percentage. */
  lemma StatForFacts(records: seq<StudyRecord>, k: nat)
    requires AllValid(records) && k < 5
    ensures var st := StatFor(records, k);
            st.subject == Catalog[k].0
            && st.totalQuestions == SubjectTally(records, st.subject).total
            && st.totalCorrect == SubjectTally(records, st.subject).correct
            && (st.totalQuestions > 0 ==> st.accuracy == Percent.RoundPercent(st.totalCorrect, st.totalQuestions))
            && 0 <= st.accuracy <= 100
  {
    var t := SubjectTally(records, Catalog[k].0);
    SubjectTallyBounds(records, Catalog[k].0);
    if t.total > 0 {
      Percent.RoundPercentRange(t.correct, t.total);
    }
  }

  /**
   * On valid rows every card's totals are the sums over its subject's records,
   * and its accuracy is the rounded percentage and lies in [0, 100].
   */
  lemma SubjectStatsTotals(records: seq<StudyRecord>)
    requires AllValid(records)
    ensures forall st :: st in SubjectStats(records) ==>
              st.totalQuestions > 0
              && st.totalQuestions == SubjectTally(records, st.subject).total
              && st.totalCorrect == SubjectTally(records, st.subject).correct
              && st.accuracy == Percent.RoundPercent(st.totalCorrect, st.totalQuestions)
              && 0 <= st.accuracy <= 100
  {
    SubjectStatsMembers(records);
    forall st | st in SubjectStats(records)
      ensures st.totalQuestions > 0
      ensures st.totalQuestions == SubjectTally(records, st.subject).total
      ensures st.totalCorrect == SubjectTally(records, st.subject).correct
      ensures st.accuracy == Percent.RoundPercent(st.totalCorrect, st.totalQuestions)
      ensures 0 <= st.accuracy <= 100
    {
      StatForFacts(records, CatalogIndex(st.subject));
    }
  }

  /** On valid rows a subject has a card exactly when it has a record. */
  lemma SubjectStatsCoverage(records: seq<StudyRecord>, j: nat)
    requires AllValid(records) && j < 5
    ensures (exists st :: st in SubjectStats(records) && st.subject == Catalog[j].0)
            <==> (exists i :: 0 <= i < |records| && records[i].subject == Catalog[j].0)
  {
    var key := Catalog[j].0;
    var st := StatFor(records, j);
    StatForFacts(records, j);
    SubjectTallyBounds(records, key);
    SubjectStatsMembers(records);
    CatalogIndexOf(j);
    if st.totalQuestions > 0 {
      assert st in SubjectStats(records);
    }
  }

  // ---------------------------------------------------------------------------
  // Dominant feeling of the last five study days
  // ---------------------------------------------------------------------------

  /** The comparator of the reversed sort: later days first. */
  predicate NotEarlier(a: int, b: int) {
    a >= b
  }

  /** `Array.from(dateGroups.keys()).sort().reverse()`: every study day once, latest first. */
  function StudyDays(records: seq<StudyRecord>): seq<int> {
    Lists.SortBy(Lists.Distinct(RecordDates(records)), NotEarlier)
  }

  /** `.slice(0, 5)` of the study days. */
  function RecentDates(records: seq<StudyRecord>): seq<int> {
    var days := StudyDays(records);
    if |days| <= 5 then days else days[..5]
  }

  /** The study days are the days with a record, strictly decreasing. */
  lemma StudyDaysFacts(records: seq<StudyRecord>)
    ensures var days := StudyDays(records);
            (forall i, j :: 0 <= i < j < |days| ==> days[i] > days[j])
            && (forall d :: d in days <==> HasRecordOn(records, d))
  {
    var distinct := Lists.Distinct(RecordDates(records));
    var days := StudyDays(records);
    Lists.DistinctFacts(RecordDates(records));
    Lists.SortBySorted(distinct, NotEarlier);
    Lists.PermutationKeepsNoDuplicates(days, distinct);
    forall d ensures d in days <==> HasRecordOn(records, d) {
      calc {
        d in days;
        d in multiset(days);
        d in multiset(distinct);
        d in distinct;
        d in RecordDates(records);
      }
      if HasRecordOn(records, d) {
        var i :| 0 <= i < |records| && records[i].date == d;
        assert RecordDates(records)[i] == d;
      }
    }
  }

  /** The recent days are at most five study days, latest first, each once. */
  lemma RecentDatesFacts(records: seq<StudyRecord>)
    ensures var ds := RecentDates(records);
            |ds| <= 5
            && (forall i, j :: 0 <= i < j < |ds| ==> ds[i] > ds[j])
            && (forall i :: 0 <= i < |ds| ==> HasRecordOn(records, ds[i]))
  {
    var days := StudyDays(records);
    StudyDaysFacts(records);
    var ds := RecentDates(records);
    forall i | 0 <= i < |ds| ensures HasRecordOn(records, ds[i]) {
      assert ds[i] == days[i];
    }
  }

  /** Any study day left out is earlier than all five listed. */
  lemma RecentDatesLatest(records: seq<StudyRecord>)
    ensures var ds := RecentDates(records);
            forall i :: 0 <= i < |records| && records[i].date !in ds ==> |ds| == 5 && records[i].date < ds[4]
  {
    var days := StudyDays(records);
    StudyDaysFacts(records);
    var ds := RecentDates(records);
    forall i | 0 <= i < |records| && records[i].date !in ds ensures |ds| == 5 && records[i].date < ds[4] {
      var d := records[i].date;
      assert HasRecordOn(records, d);
      var k :| 0 <= k < |days| && days[k] == d;
      assert k >= 5;
    }
  }

  /** How many of `day`'s records carry `emotion`. */
  function Count(day: seq<StudyRecord>, emotion: string): nat {
    if day == [] then 0
    else Count(day[..|day| - 1], emotion) + if day[|day| - 1].emotion == emotion then 1 else 0
  }

  /** The comparator `([, a], [, b]) => b - a` over the count entries. */
  predicate MoreFrequent(a: (string, int), b: (string, int)) {
    a.1 >= b.1
  }

  /** The feeling with the largest count, ties going to good, then normal, then hard. */
  function Preferred(good: int, normal: int, hard: int): (e: string)
    ensures e in {"good", "normal", "hard"}
    ensures var c := if e == "good" then good else if e == "normal" then normal else hard;
            c >= good && c >= normal && c >= hard
  {
    if good >= normal && good >= hard then "good"
    else if normal >= hard then "normal"
    else "hard"
  }

  /**
   * The first key of `Object.entries({ good, normal, hard })` after the stable
   * sort by count, largest first: the preferred feeling.
   */
  method DominantFeeling(good: int, normal: int, hard: int) returns (e: string)
    ensures e == Preferred(good, normal, hard)
  {
    var entries := [("good", good), ("normal", normal), ("hard", hard)];
    SortThreeHead(entries[0], entries[1], entries[2]);
    var sorted := Lists.SortBy(entries, MoreFrequent);
    e := sorted[0].0;
  }

  lemma SortOne(a: (string, int))
    ensures Lists.SortBy([a], MoreFrequent) == [a]
  {
    var none: seq<(string, int)> := [];
    assert [a][..0] == none;
  }

  lemma InsertIntoOne(a: (string, int), x: (string, int))
    ensures Lists.Insert([a], x, MoreFrequent) == if a.1 >= x.1 then [a, x] else [x, a]
  {
    var none: seq<(string, int)> := [];
    assert [a][..0] == none;
  }

  lemma InsertIntoTwo(a: (string, int), b: (string, int), x: (string, int))
    ensures Lists.Insert([a, b], x, MoreFrequent)[0] == if b.1 >= x.1 || a.1 >= x.1 then a else x
  {
    assert [a, b][..1] == [a];
    if b.1 < x.1 {
      InsertIntoOne(a, x);
    }
  }

  lemma SortTwo(a: (string, int), b: (string, int))
    ensures Lists.SortBy([a, b], MoreFrequent) == if a.1 >= b.1 then [a, b] else [b, a]
  {
    assert [a, b][..1] == [a];
    SortOne(a);
    InsertIntoOne(a, b);
  }

  /** The head of the stable sort of three entries, by count, largest first. */
  lemma SortThreeHead(a: (string, int), b: (string, int), c: (string, int))
    ensures Lists.SortBy([a, b, c], MoreFrequent)[0] ==
              if a.1 >= b.1 then (if a.1 >= c.1 then a else c)
              else (if b.1 >= c.1 then b else c)
  {
    SortThreeStep(a, b, c);
    SortTwo(a, b);
    if a.1 >= b.1 {
      InsertIntoTwo(a, b, c);
    } else {
      InsertIntoTwo(b, a, c);
    }
  }

  lemma SortThreeStep(a: (string, int), b: (string, int), c: (string, int))
    ensures Lists.SortBy([a, b, c], MoreFrequent) == Lists.Insert(Lists.SortBy([a, b], MoreFrequent), c, MoreFrequent)
  {
    assert [a, b, c][..2] == [a, b];
  }

  /** `day.forEach(...)` counting the three feelings of one day. */
  method CountEmotions(day: seq<StudyRecord>) returns (good: nat, normal: nat, hard: nat)
    ensures good == Count(day, "good") && normal == Count(day, "normal") && hard == Count(day, "hard")
  {
    good, normal, hard := 0, 0, 0;
    for i := 0 to |day|
      invariant good == Count(day[..i], "good")
      invariant normal == Count(day[..i], "normal")
      invariant hard == Count(day[..i], "hard")
    {
      assert day[..i + 1][..i] == day[..i];
      if day[i].emotion == "good" {
        good := good + 1;
      } else if day[i].emotion == "normal" {
        normal := normal + 1;
      } else if day[i].emotion == "hard" {
        hard := hard + 1;
      }
    }
    assert day[..|day|] == day;
  }

  /** The records written on day `d`, in record order (`dateGroups.get(d)`). */
  function RecordsOn(records: seq<StudyRecord>, d: int): seq<StudyRecord> {
    if records == [] then []
    else
      var init := RecordsOn(records[..|records| - 1], d);
      if records[|records| - 1].date == d then init + [records[|records| - 1]] else init
  }

  /** The preferred feeling of a day's records. */
  function PreferredOf(day: seq<StudyRecord>): string {
    Preferred(Count(day, "good"), Count(day, "normal"), Count(day, "hard"))
  }

  /**
   * `calculateRecentEmotions(records)`. The feelings are those the table allows;
   * any other value would add a count entry that is not a number.
   */
  method RecentEmotions(records: seq<StudyRecord>) returns (r: seq<(int, string)>)
    requires forall i :: 0 <= i < |records| ==> records[i].emotion in Emotions
    ensures |r| == |RecentDates(records)|
    ensures forall i :: 0 <= i < |r| ==> r[i] == (RecentDates(records)[i], PreferredOf(RecordsOn(records, RecentDates(records)[i])))
  {
    var dates := RecentDates(records);
    r := [];
    for i := 0 to |dates|
      invariant |r| == i
      invariant forall k :: 0 <= k < i ==> r[k] == (dates[k], PreferredOf(RecordsOn(records, dates[k])))
    {
      var feeling := DayFeeling(RecordsOn(records, dates[i]));
      r := r + [(dates[i], feeling)];
    }
  }

  /** The feeling shown for one day: its records' counts, then the sort of the counts. */
  method DayFeeling(day: seq<StudyRecord>) returns (e: string)
    ensures e == PreferredOf(day)
  {
    var good, normal, hard := CountEmotions(day);
    e := DominantFeeling(good, normal, hard);
  }

  /** `dateGroups.get(d)` holds exactly the records of day `d`. */
  lemma {:induction false} RecordsOnMembers(records: seq<StudyRecord>, d: int)
    ensures forall x :: x in RecordsOn(records, d) <==> x in records && x.date == d
  {
    if records != [] {
      var init := records[..|records| - 1];
      RecordsOnMembers(init, d);
      assert records == init + [records[|records| - 1]];
    }
  }

  /**
   * Recent emotions lists at most five study days, latest first, and each day's
   * feeling is one with the largest count among that day's records.
   */
  lemma RecentFeelingsFacts(records: seq<StudyRecord>, r: seq<(int, string)>)
    requires |r| == |RecentDates(records)|
    requires forall i :: 0 <= i < |r| ==> r[i] == (RecentDates(records)[i], PreferredOf(RecordsOn(records, RecentDates(records)[i])))
    ensures |r| <= 5
    ensures forall i, j :: 0 <= i < j < |r| ==> r[i].0 > r[j].0
    ensures forall i :: 0 <= i < |r| ==> HasRecordOn(records, r[i].0)
    ensures forall i :: 0 <= i < |r| ==>
              var day := RecordsOn(records, r[i].0);
              var c := Count(day, r[i].1);
              c >= Count(day, "good") && c >= Count(day, "normal") && c >= Count(day, "hard")
  {
    RecentDatesFacts(records);
  }

  // ---------------------------------------------------------------------------
  // Today's cards
  // ---------------------------------------------------------------------------

  /** The map key `${study_date}-${subject}-${content_type}`. */
  datatype Key = Key(studyDate: int, subject: string, contentType: string)

  function KeyOf(r: StudyRecord): Key {
    Key(r.studyDate, r.subject, r.contentType)
  }

  /** The comparator `(a, b) => b.attempt_number - a.attempt_number`. */
  predicate ByAttemptDescending(a: StudyRecord, b: StudyRecord) {
    b.attemptNumber <= a.attemptNumber
  }

  /**
   * The record a card shows: the highest attempt at the same material written on
   * the same day, or `rec` itself when `all` has none.
   */
  function LatestRecord(all: seq<StudyRecord>, rec: StudyRecord): (r: StudyRecord)
    ensures KeyOf(r) == KeyOf(rec)
    ensures r == rec || (r in all && r.date == rec.date)
    ensures forall x :: x in all && SameMaterial(x, rec) && x.date == rec.date ==> x.attemptNumber <= r.attemptNumber
  {
    var same := Lists.Filter(all, SameCard(rec));
    Lists.FilterMembers(all, SameCard(rec));
    if same == [] then rec
    else
      Lists.SortByHeadIsLeast(same, ByAttemptDescending);
      var top := Lists.SortBy(same, ByAttemptDescending)[0];
      assert top in multiset(Lists.SortBy(same, ByAttemptDescending));
      assert top in same;
      top
  }

  /** The records `LatestRecord` chooses among: the same material, written the same day as `rec`. */
  function SameCard(rec: StudyRecord): StudyRecord -> bool {
    x => SameMaterial(x, rec) && x.date == rec.date
  }

  lemma ByAttemptDescendingIsPreorder()
    ensures Lists.TotalPreorder(ByAttemptDescending)
  {
  }

  /**
   * Of several records with the highest attempt, the card shows the one that
   * comes first in `all`, as the stable descending sort leaves it in front.
   */
  lemma LatestRecordIsFirst(all: seq<StudyRecord>, rec: StudyRecord, j: int)
    requires 0 <= j < |all| && SameMaterial(all[j], rec) && all[j].date == rec.date
    requires all[j].attemptNumber == LatestRecord(all, rec).attemptNumber
    ensures LatestRecord(all, rec) in all[..j + 1]
  {
    var same := Lists.Filter(all, SameCard(rec));
    Lists.FilterMembers(all, SameCard(rec));
    assert all[j] in same;
    var sorted := Lists.SortBy(same, ByAttemptDescending);
    var top := sorted[0];
    assert LatestRecord(all, rec) == top;
    var tied := Lists.TiedWith(ByAttemptDescending, top);
    ByAttemptDescendingIsPreorder();
    Lists.SortByStable(same, top, ByAttemptDescending);
    Lists.FilterHead(sorted, tied);
    assert tied(all[j]);
    Lists.FilterTwiceFirst(all, SameCard(rec), tied, j);
  }

  /** A card of today: the record shown and its attempt history. */
  datatype TodayEntry = TodayEntry(shown: StudyRecord, history: seq<Attempt>)

  function Entry(all: seq<StudyRecord>, rec: StudyRecord): TodayEntry {
    TodayEntry(LatestRecord(all, rec), AttemptHistory(all, rec))
  }

  /** The keys of `rs` in the order they first appear (the insertion order of the `Map`). */
  function CardKeys(rs: seq<StudyRecord>): seq<Key> {
    if rs == [] then []
    else
      var ks := CardKeys(rs[..|rs| - 1]);
      var k := KeyOf(rs[|rs| - 1]);
      if k in ks then ks else ks + [k]
  }

  /** For each key of `rs`, the last record with it (the value each `Map.set` leaves behind). */
  function Latest(rs: seq<StudyRecord>): map<Key, StudyRecord> {
    if rs == [] then map[]
    else Latest(rs[..|rs| - 1])[KeyOf(rs[|rs| - 1]) := rs[|rs| - 1]]
  }

  /** The keys listed are exactly the keys of the records, each once, and each has its last record. */
  lemma {:induction false} CardKeysFacts(rs: seq<StudyRecord>)
    ensures forall k :: k in CardKeys(rs) <==> k in Latest(rs)
    ensures forall k :: k in Latest(rs) <==> exists j :: 0 <= j < |rs| && KeyOf(rs[j]) == k
    ensures forall i, j :: 0 <= i < j < |CardKeys(rs)| ==> CardKeys(rs)[i] != CardKeys(rs)[j]
    ensures forall k :: k in Latest(rs) ==> Latest(rs)[k] in rs && KeyOf(Latest(rs)[k]) == k
  {
    if rs != [] {
      var init := rs[..|rs| - 1];
      CardKeysFacts(init);
      forall k | k in Latest(rs) ensures exists j :: 0 <= j < |rs| && KeyOf(rs[j]) == k {
        if k != KeyOf(rs[|rs| - 1]) {
          assert k in Latest(init);
          var j :| 0 <= j < |init| && KeyOf(init[j]) == k;
          assert rs[j] == init[j];
        }
      }
      forall k | exists j :: 0 <= j < |rs| && KeyOf(rs[j]) == k ensures k in Latest(rs) {
        var j :| 0 <= j < |rs| && KeyOf(rs[j]) == k;
        if j < |init| {
          assert init[j] == rs[j];
        }
      }
    }
  }

  /** The record kept for a key is the last one with that key. */
  lemma {:induction false} LatestIsLast(rs: seq<StudyRecord>, j: int)
    requires 0 <= j < |rs|
    requires forall j' :: j < j' < |rs| ==> KeyOf(rs[j']) != KeyOf(rs[j])
    ensures KeyOf(rs[j]) in Latest(rs) && Latest(rs)[KeyOf(rs[j])] == rs[j]
  {
    if j < |rs| - 1 {
      var init := rs[..|rs| - 1];
      assert init[j] == rs[j];
      LatestIsLast(init, j);
    }
  }

  /** The cards `processTodayRecords` is meant to build: per distinct key, the entry of the last record with it. */
  function TodayCards(todays: seq<StudyRecord>, all: seq<StudyRecord>): seq<TodayEntry> {
    var ks := CardKeys(todays);
    CardKeysFacts(todays);
    seq(|ks|, i requires 0 <= i < |ks| => Entry(all, Latest(todays)[ks[i]]))
  }

  /**
   * `processTodayRecords(todayRecords, allRecords)`: one card per distinct key,
   * in the order keys first appear; a later record with the same key replaces the
   * card's content but not its place.
   */
  method ProcessTodayRecords(todays: seq<StudyRecord>, all: seq<StudyRecord>) returns (r: seq<TodayEntry>)
    ensures r == TodayCards(todays, all)
  {
    var keys: seq<Key> := [];
    var latest: map<Key, StudyRecord> := map[];
    for i := 0 to |todays|
      invariant keys == CardKeys(todays[..i])
      invariant latest == Latest(todays[..i])
    {
      var rec := todays[i];
      var k := KeyOf(rec);
      assert todays[..i + 1][..i] == todays[..i];
      CardKeysFacts(todays[..i]);
      if k !in latest {
        keys := keys + [k];
      }
      latest := latest[k := rec];
    }
    assert todays[..|todays|] == todays;
    CardKeysFacts(todays);
    r := seq(|keys|, j requires 0 <= j < |keys| => Entry(all, latest[keys[j]]));
  }

  /** A card shows a record of the key it was made for, with that record's material history. */
  lemma EntryFacts(all: seq<StudyRecord>, rec: StudyRecord)
    ensures KeyOf(Entry(all, rec).shown) == KeyOf(rec)
    ensures Entry(all, rec).history == AttemptHistory(all, rec)
  {
  }

  /** The `i`-th card is made for the `i`-th key and shows the history of the last record of today with it. */
  lemma TodayCardHistory(todays: seq<StudyRecord>, all: seq<StudyRecord>, i: int)
    requires 0 <= i < |TodayCards(todays, all)|
    ensures CardKeys(todays)[i] in Latest(todays)
    ensures var card := TodayCards(todays, all)[i];
            var rec := Latest(todays)[CardKeys(todays)[i]];
            rec in todays && KeyOf(card.shown) == KeyOf(rec) == CardKeys(todays)[i]
            && card.history == AttemptHistory(all, rec)
  {
    CardKeysFacts(todays);
    EntryFacts(all, Latest(todays)[CardKeys(todays)[i]]);
  }

  /** The cards have pairwise distinct keys and cover every key of today's records. */
  lemma TodayCardsCover(todays: seq<StudyRecord>, all: seq<StudyRecord>)
    ensures var r := TodayCards(todays, all);
            forall i, j :: 0 <= i < j < |r| ==> KeyOf(r[i].shown) != KeyOf(r[j].shown)
    ensures var r := TodayCards(todays, all);
            forall rec :: rec in todays ==> exists i :: 0 <= i < |r| && KeyOf(r[i].shown) == KeyOf(rec)
  {
    var r := TodayCards(todays, all);
    var ks := CardKeys(todays);
    CardKeysFacts(todays);
    forall i | 0 <= i < |r| ensures KeyOf(r[i].shown) == ks[i] {
      TodayCardHistory(todays, all, i);
    }
    forall rec | rec in todays ensures exists i :: 0 <= i < |r| && KeyOf(r[i].shown) == KeyOf(rec) {
      var n :| 0 <= n < |todays| && todays[n] == rec;
      assert KeyOf(rec) in ks;
      var i :| 0 <= i < |ks| && ks[i] == KeyOf(rec);
      assert KeyOf(r[i].shown) == ks[i];
    }
  }

  // ---------------------------------------------------------------------------
  // Milestone
  // ---------------------------------------------------------------------------

  /** The line under the streak counter. */
  function MilestoneText(days: int): string {
    if days >= 17 then "🎉 完走達成！"
    else if days >= 10 then "💪 もう少し！"
    else if days >= 5 then "🌟 順調です！"
    else "📈 がんばろう！"
  }

  /** The four texts split the streak into [17, ∞), [10, 17), [5, 10) and below 5, and a longer streak never shows an earlier stage. */
  lemma MilestoneStages(a: int, b: int)
    requires a <= b
    ensures MilestoneText(a) == "🎉 完走達成！" ==> MilestoneText(b) == "🎉 完走達成！"
    ensures MilestoneText(b) == "📈 がんばろう！" ==> MilestoneText(a) == "📈 がんばろう！"
    ensures MilestoneText(a) == "💪 もう少し！" ==> MilestoneText(b) in {"💪 もう少し！", "🎉 完走達成！"}
    ensures MilestoneText(a) == "🌟 順調です！" ==> MilestoneText(b) != "📈 がんばろう！"
  {
  }
}
