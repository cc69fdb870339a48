/**
 * The reflection journal (`src/components/ReflectionPage.tsx`): a learner
 * writes one reflection per day, a second one for the same day overwrites the
 * first, and a teacher adds a comment to a reflection. The `reflections` table
 * is a field of the page's model, so each handler's write and the reload after
 * it are stated on the rows; whether a read or a write reports an error is a
 * parameter.
 */
module Reflections {
  import opened Wrappers
  import Text
  import Lists
  import opened Schema

  const Required: string := "日付と振り返り内容は必須です。"
  const LoadFailed: string := "振り返りデータの読み込みに失敗しました。"
  const SaveFailed: string := "振り返りの保存に失敗しました。"
  const CommentRequired: string := "コメントを入力してください。"
  const CommentFailed: string := "先生コメントの保存に失敗しました。"

  /** `reflections.find(r => r.date === date)`: the first reflection of that day. */
  function Find(rs: seq<Reflection>, date: string): (found: Option<Reflection>)
    ensures found.Some? ==> found.value in rs && found.value.date == date
  {
    if rs == [] then None
    else if rs[0].date == date then Some(rs[0])
    else Find(rs[1..], date)
  }

  /** `find` succeeds exactly when some reflection has the date, and it answers the first one. */
  lemma {:induction false} FindFirst(rs: seq<Reflection>, date: string)
    ensures Find(rs, date).Some? <==> exists i :: 0 <= i < |rs| && rs[i].date == date
    ensures Find(rs, date).Some? ==>
              exists i :: 0 <= i < |rs| && rs[i] == Find(rs, date).value && forall k :: 0 <= k < i ==> rs[k].date != date
  {
    if rs != [] && rs[0].date != date {
      FindFirst(rs[1..], date);
      if exists i :: 0 <= i < |rs| && rs[i].date == date {
        var i :| 0 <= i < |rs| && rs[i].date == date;
        assert rs[1..][i - 1].date == date;
      }
      if Find(rs, date).Some? {
        var i :| 0 <= i < |rs[1..]| && rs[1..][i] == Find(rs, date).value && forall k :: 0 <= k < i ==> rs[1..][k].date != date;
        assert rs[i + 1] == Find(rs, date).value;
        assert forall k :: 1 <= k < i + 1 ==> rs[k].date == rs[1..][k - 1].date;
      }
    } else if rs != [] {
      assert rs[0].date == date;
    }
  }

  /** `text.trim() || null`: the trimmed text, with nothing stored when it is empty. */
  function NullIfBlank(text: string): (r: Option<string>)
    ensures r.None? <==> Text.IsBlank(text)
    ensures r.Some? ==> r.value == Text.Trim(text) && r.value != ""
  {
    Text.TrimEmptyIffBlank(text);
    if Text.Trim(text) == "" then None else Some(Text.Trim(text))
  }

  /** `.update({ reflection_content, improvement_points }).eq('id', id)`. */
  function UpdateContent(rs: seq<Reflection>, id: int, content: string, improvement: Option<string>): seq<Reflection> {
    seq(|rs|, i requires 0 <= i < |rs| =>
      if rs[i].id == id then rs[i].(content := content, improvement := improvement) else rs[i])
  }

  /** `.update({ teacher_comment }).eq('id', id)`. */
  function UpdateComment(rs: seq<Reflection>, id: int, comment: string): seq<Reflection> {
    seq(|rs|, i requires 0 <= i < |rs| =>
      if rs[i].id == id then rs[i].(teacherComment := Some(comment)) else rs[i])
  }

  /** An update by id rewrites the two text columns of the rows with that id and nothing else. */
  lemma UpdateContentChanges(rs: seq<Reflection>, id: int, content: string, improvement: Option<string>)
    ensures var t := UpdateContent(rs, id, content, improvement);
            |t| == |rs|
            && (forall i :: 0 <= i < |rs| && rs[i].id != id ==> t[i] == rs[i])
            && (forall i :: 0 <= i < |rs| && rs[i].id == id ==>
                  t[i].content == content && t[i].improvement == improvement
                  && t[i].id == rs[i].id && t[i].date == rs[i].date && t[i].teacherComment == rs[i].teacherComment)
  {
  }

  /** A comment by id sets the comment of the rows with that id and nothing else. */
  lemma UpdateCommentChanges(rs: seq<Reflection>, id: int, comment: string)
    ensures var t := UpdateComment(rs, id, comment);
            |t| == |rs|
            && (forall i :: 0 <= i < |rs| && rs[i].id != id ==> t[i] == rs[i])
            && (forall i :: 0 <= i < |rs| && rs[i].id == id ==>
                  t[i].teacherComment == Some(comment)
                  && t[i].id == rs[i].id && t[i].date == rs[i].date
                  && t[i].content == rs[i].content && t[i].improvement == rs[i].improvement)
  {
  }

  /** `.order('date', { ascending: false })`: later days first, rows of one day in table order. */
  predicate LaterDay(a: Reflection, b: Reflection) {
    Text.StrLe(b.date, a.date)
  }

  function Newest(rs: seq<Reflection>): seq<Reflection> {
    Lists.SortBy(rs, LaterDay)
  }

  /** The read holds the table's rows, each as often, with no day before a later one. */
  lemma NewestFacts(rs: seq<Reflection>)
    ensures multiset(Newest(rs)) == multiset(rs)
    ensures forall i, j :: 0 <= i < j < |Newest(rs)| ==> Text.StrLe(Newest(rs)[j].date, Newest(rs)[i].date)
  {
    Text.StrLeTotalPreorder();
    assert Lists.TotalPreorder(LaterDay);
    Lists.SortBySorted(rs, LaterDay);
  }

  /** The ids of the rows are distinct and below the next id the table will hand out. */
  predicate IdsBelow(rs: seq<Reflection>, nextId: int) {
    (forall i :: 0 <= i < |rs| ==> rs[i].id < nextId)
    && (forall i, j :: 0 <= i < j < |rs| ==> rs[i].id != rs[j].id)
  }

  /** Updates keep the ids; an insert with the next id keeps them distinct. */
  lemma IdsKept(rs: seq<Reflection>, nextId: int, id: int, content: string, improvement: Option<string>, comment: string, r: Reflection)
    requires IdsBelow(rs, nextId)
    ensures IdsBelow(UpdateContent(rs, id, content, improvement), nextId)
    ensures IdsBelow(UpdateComment(rs, id, comment), nextId)
    ensures r.id == nextId ==> IdsBelow(rs + [r], nextId + 1)
  {
  }

  /**
   * The page's state and the `reflections` table it writes to. `rows` and
   * `nextId` stand for the table; the other fields are the page's.
   */
  class ReflectionPage {
    var rows: seq<Reflection>
    var nextId: int
    var reflections: seq<Reflection>
    var error: Option<string>
    var selectedDate: string
    var reflectionContent: string
    var improvementPoints: string
    var editing: Option<int>
    var teacherComment: string

    /** The table's ids stay distinct. */
    predicate Valid()
      reads this
    {
      IdsBelow(rows, nextId)
    }

    /** The page as it mounts over a table, with `today` (the UTC date of the clock) selected. */
    constructor (table: seq<Reflection>, next: int, today: string)
      requires IdsBelow(table, next)
      ensures Valid()
      ensures rows == table && nextId == next && reflections == [] && error == None
      ensures selectedDate == today && reflectionContent == "" && improvementPoints == ""
      ensures editing == None && teacherComment == ""
    {
      rows := table;
      nextId := next;
      reflections := [];
      error := None;
      selectedDate := today;
      reflectionContent := "";
      improvementPoints := "";
      editing := None;
      teacherComment := "";
    }

    /** `loadReflections()`: `readOk` says whether the read succeeds. */
    method LoadReflections(readOk: bool)
      modifies this
      ensures readOk ==> reflections == Newest(rows) && error == None
      ensures !readOk ==> reflections == old(reflections) && error == Some(LoadFailed)
      ensures rows == old(rows) && nextId == old(nextId) && selectedDate == old(selectedDate)
      ensures reflectionContent == old(reflectionContent) && improvementPoints == old(improvementPoints)
      ensures editing == old(editing) && teacherComment == old(teacherComment)
    {
      error := None;
      if !readOk {
        error := Some(LoadFailed);
        return;
      }
      reflections := Newest(rows);
    }

    /**
     * `handleSubmitReflection()`: a missing date or blank content is refused;
     * otherwise the reflection of the selected day, if the page lists one, is
     * overwritten by id, or else a new row is inserted; then the two text
     * fields are cleared and the list reloaded. `writeOk` and `readOk` say
     * whether the write and the reload succeed.
     */
    method SubmitReflection(writeOk: bool, readOk: bool)
      requires Valid()
      modifies this
      ensures Valid()
      ensures selectedDate == old(selectedDate) && editing == old(editing) && teacherComment == old(teacherComment)
      ensures old(selectedDate) == "" || Text.IsBlank(old(reflectionContent)) ==>
                rows == old(rows) && error == Some(Required) && reflections == old(reflections)
                && reflectionContent == old(reflectionContent) && improvementPoints == old(improvementPoints)
      ensures old(selectedDate) != "" && !Text.IsBlank(old(reflectionContent)) && !writeOk ==>
                rows == old(rows) && error == Some(SaveFailed) && reflections == old(reflections)
                && reflectionContent == old(reflectionContent) && improvementPoints == old(improvementPoints)
      ensures old(selectedDate) != "" && !Text.IsBlank(old(reflectionContent)) && writeOk ==>
                var content := Text.Trim(old(reflectionContent));
                var improvement := NullIfBlank(old(improvementPoints));
                (match Find(old(reflections), old(selectedDate))
                 case Some(existing) => rows == UpdateContent(old(rows), existing.id, content, improvement) && nextId == old(nextId)
                 case None => rows == old(rows) + [Reflection(old(nextId), old(selectedDate), content, improvement, None)]
                              && nextId == old(nextId) + 1)
                && reflectionContent == "" && improvementPoints == ""
                && (readOk ==> reflections == Newest(rows) && error == None)
                && (!readOk ==> reflections == old(reflections) && error == Some(LoadFailed))
    {
      Text.TrimEmptyIffBlank(reflectionContent);
      if selectedDate == "" || Text.Trim(reflectionContent) == "" {
        error := Some(Required);
        return;
      }
      error := None;
      var existing := Find(reflections, selectedDate);
      if !writeOk {
        error := Some(SaveFailed);
        return;
      }
      var content := Text.Trim(reflectionContent);
      var improvement := NullIfBlank(improvementPoints);
      IdsKept(rows, nextId, if existing.Some? then existing.value.id else 0, content, improvement, "",
              Reflection(nextId, selectedDate, content, improvement, None));
      if existing.Some? {
        rows := UpdateContent(rows, existing.value.id, content, improvement);
      } else {
        rows := rows + [Reflection(nextId, selectedDate, content, improvement, None)];
        nextId := nextId + 1;
      }
      reflectionContent := "";
      improvementPoints := "";
      LoadReflections(readOk);
    }

    /**
     * `handleAddTeacherComment(id)`: a blank comment is refused; otherwise the
     * comment is stored, the editor closed and cleared, and the list reloaded.
     */
    method AddTeacherComment(id: int, writeOk: bool, readOk: bool)
      requires Valid()
      modifies this
      ensures Valid()
      ensures nextId == old(nextId) && selectedDate == old(selectedDate)
      ensures reflectionContent == old(reflectionContent) && improvementPoints == old(improvementPoints)
      ensures Text.IsBlank(old(teacherComment)) ==>
                rows == old(rows) && error == Some(CommentRequired) && reflections == old(reflections)
                && editing == old(editing) && teacherComment == old(teacherComment)
      ensures !Text.IsBlank(old(teacherComment)) && !writeOk ==>
                rows == old(rows) && error == Some(CommentFailed) && reflections == old(reflections)
                && editing == old(editing) && teacherComment == old(teacherComment)
      ensures !Text.IsBlank(old(teacherComment)) && writeOk ==>
                rows == UpdateComment(old(rows), id, Text.Trim(old(teacherComment)))
                && editing == None && teacherComment == ""
                && (readOk ==> reflections == Newest(rows) && error == None)
                && (!readOk ==> reflections == old(reflections) && error == Some(LoadFailed))
    {
      Text.TrimEmptyIffBlank(teacherComment);
      if Text.Trim(teacherComment) == "" {
        error := Some(CommentRequired);
        return;
      }
      error := None;
      if !writeOk {
        error := Some(CommentFailed);
        return;
      }
      IdsKept(rows, nextId, id, "", None, Text.Trim(teacherComment), Reflection(nextId, "", "", None, None));
      rows := UpdateComment(rows, id, Text.Trim(teacherComment));
      teacherComment := "";
      editing := None;
      LoadReflections(readOk);
    }

    /** The comment button of a reflection opens the editor on it. */
    method StartEditing(id: int)
      modifies this
      ensures editing == Some(id)
      ensures rows == old(rows) && nextId == old(nextId) && reflections == old(reflections) && error == old(error)
      ensures selectedDate == old(selectedDate) && reflectionContent == old(reflectionContent)
      ensures improvementPoints == old(improvementPoints) && teacherComment == old(teacherComment)
    {
      editing := Some(id);
    }

    /** The cancel button closes the editor and drops the draft. */
    method CancelEditing()
      modifies this
      ensures editing == None && teacherComment == ""
      ensures rows == old(rows) && nextId == old(nextId) && reflections == old(reflections) && error == old(error)
      ensures selectedDate == old(selectedDate) && reflectionContent == old(reflectionContent)
      ensures improvementPoints == old(improvementPoints)
    {
      editing := None;
      teacherComment := "";
    }

    /** The overwrite warning under the date input. */
    function OverwriteWarning(): (shown: bool)
      reads this
      ensures shown <==> exists i :: 0 <= i < |reflections| && reflections[i].date == selectedDate
    {
      FindFirst(reflections, selectedDate);
      Find(reflections, selectedDate).Some?
    }
  }

  /**
   * A saved reflection of a day the page already lists replaces that row:
   * the table keeps its size and the row keeps its id, date and comment.
   */
  lemma OverwriteKeepsRow(rs: seq<Reflection>, listed: seq<Reflection>, date: string, content: string, improvement: Option<string>)
    requires Find(listed, date).Some?
    ensures var id := Find(listed, date).value.id;
            var t := UpdateContent(rs, id, content, improvement);
            |t| == |rs| && forall i :: 0 <= i < |rs| ==>
              t[i].id == rs[i].id && t[i].date == rs[i].date && t[i].teacherComment == rs[i].teacherComment
              && (rs[i].id == id ==> t[i].content == content && t[i].improvement == improvement)
  {
    UpdateContentChanges(rs, Find(listed, date).value.id, content, improvement);
  }

  /** A saved reflection of a new day adds exactly one row, holding the trimmed text and no comment. */
  lemma NewDayAddsRow(rs: seq<Reflection>, nextId: int, date: string, text: string, improvement: string)
    requires IdsBelow(rs, nextId) && !Text.IsBlank(text)
    ensures var r := Reflection(nextId, date, Text.Trim(text), NullIfBlank(improvement), None);
            |rs + [r]| == |rs| + 1 && IdsBelow(rs + [r], nextId + 1)
            && r.content != "" && r.teacherComment.None?
            && (r.improvement.None? <==> Text.IsBlank(improvement))
  {
    Text.TrimEmptyIffBlank(text);
  }
}
