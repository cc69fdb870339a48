/**
 * The two study-record entry forms: the stand-alone page (`app/page.tsx`)
 * and the form component (`StudyRecordForm.tsx`). Both check the same
 * fields in the same order before they accept a record; neither writes to
 * the database, and the console log of the accepted record is left out.
 * `alert` becomes the returned message.
 */
module StudyForms {
  import opened Wrappers
  import Text
  import Percent
  import Schema

  const Required := "必須項目を入力してください"
  const CorrectAboveTotal := "正答数は問題数以下にしてください"
  const Saved := "学習記録を保存しました！"

  /** `correct > total` on two `parseInt` results; any comparison with `NaN` is false. */
  predicate Exceeds(correct: Option<int>, total: Option<int>) {
    correct.Some? && total.Some? && correct.value > total.value
  }

  /** The first complaint of a submit: a missing required field, then more correct answers than questions. */
  function SubmitError(subject: string, total: string, correct: string, emotion: string): Option<string> {
    if subject == "" || total == "" || correct == "" || emotion == "" then Some(Required)
    else if Exceeds(Text.ParseInt(correct), Text.ParseInt(total)) then Some(CorrectAboveTotal)
    else None
  }

  /**
   * A submit is accepted exactly when the four required fields are filled and
   * the correct count does not exceed the total; text that `parseInt` cannot
   * read (`NaN`) passes the second check.
   */
  lemma SubmitErrorCases(subject: string, total: string, correct: string, emotion: string)
    ensures SubmitError(subject, total, correct, emotion) == Some(Required) <==>
              subject == "" || total == "" || correct == "" || emotion == ""
    ensures SubmitError(subject, total, correct, emotion) == None <==>
              subject != "" && total != "" && correct != "" && emotion != ""
              && (Text.ParseInt(correct).None? || Text.ParseInt(total).None?
                  || Text.ParseInt(correct).value <= Text.ParseInt(total).value)
  {
  }

  /** Two written counts are accepted exactly when the first is at most the second. */
  lemma SubmitErrorOfCounts(subject: string, emotion: string, correct: int, total: int)
    requires subject != "" && emotion != ""
    ensures SubmitError(subject, Text.IntToString(total), Text.IntToString(correct), emotion) == None <==> correct <= total
    ensures SubmitError(subject, Text.IntToString(total), Text.IntToString(correct), emotion) == Some(CorrectAboveTotal) <==> correct > total
  {
    Text.ParseIntOfIntToString(total);
    Text.ParseIntOfIntToString(correct);
  }

  /** The accuracy under the two number fields: shown once both are filled, as `Math.round(correct / total * 100)`. */
  function ShownAccuracy(total: string, correct: string): Option<Percent.Number> {
    if total != "" && correct != "" then Some(Percent.AccuracyOf(Text.ParseInt(correct), Text.ParseInt(total)))
    else None
  }

  /** For the counts of a valid record the shown accuracy is the rounded percentage, between 0 and 100. */
  lemma ShownAccuracyOfCounts(correct: int, total: int)
    requires 0 <= correct <= total && total > 0
    ensures ShownAccuracy(Text.IntToString(total), Text.IntToString(correct)) == Some(Percent.Finite(Percent.RoundPercent(correct, total)))
    ensures 0 <= Percent.RoundPercent(correct, total) <= 100
  {
    Text.ParseIntOfIntToString(total);
    Text.ParseIntOfIntToString(correct);
    Percent.RoundPercentRange(correct, total);
  }

  // ---------------------------------------------------------------------------
  // The stand-alone page
  // ---------------------------------------------------------------------------

  /** The page's five text fields. */
  class StudyRecordPage {
    var subject: string
    var totalQuestions: string
    var correctAnswers: string
    var emotion: string
    var comment: string

    constructor ()
      ensures subject == "" && totalQuestions == "" && correctAnswers == "" && emotion == "" && comment == ""
    {
      subject := "";
      totalQuestions := "";
      correctAnswers := "";
      emotion := "";
      comment := "";
    }

    /** The accuracy panel, read from the current fields. */
    function Accuracy(): Option<Percent.Number>
      reads this
    {
      ShownAccuracy(totalQuestions, correctAnswers)
    }

    /** `handleSave`: a refused save keeps every field; an accepted one clears all five. */
    method HandleSave() returns (alert: string)
      modifies this
      ensures var e := SubmitError(old(subject), old(totalQuestions), old(correctAnswers), old(emotion));
              (e.Some? ==>
                 alert == e.value
                 && subject == old(subject) && totalQuestions == old(totalQuestions)
                 && correctAnswers == old(correctAnswers) && emotion == old(emotion) && comment == old(comment))
              && (e.None? ==>
                 alert == Saved
                 && subject == "" && totalQuestions == "" && correctAnswers == "" && emotion == "" && comment == "")
    {
      if subject == "" || totalQuestions == "" || correctAnswers == "" || emotion == "" {
        return Required;
      }
      var total := Text.ParseInt(totalQuestions);
      var correct := Text.ParseInt(correctAnswers);
      if Exceeds(correct, total) {
        return CorrectAboveTotal;
      }
      alert := Saved;
      subject := "";
      totalQuestions := "";
      correctAnswers := "";
      emotion := "";
      comment := "";
    }
  }

  /** The page offers exactly the subjects and feelings the `study_records` table allows. */
  const PageSubjects: seq<string> := ["aptitude", "japanese", "math", "science", "social"]
  const PageEmotions: seq<string> := ["good", "normal", "hard"]

  // ---------------------------------------------------------------------------
  // The form component
  // ---------------------------------------------------------------------------

  /** The form's record: five text fields. */
  datatype FormRecord = FormRecord(subject: string, totalQuestions: string, correctAnswers: string, emotion: string, comment: string)

  const EmptyRecord := FormRecord("", "", "", "", "")

  datatype Field = SubjectField | TotalField | CorrectField | EmotionField | CommentField

  /** Field `f` of a record. */
  function Get(r: FormRecord, f: Field): string {
    match f
    case SubjectField => r.subject
    case TotalField => r.totalQuestions
    case CorrectField => r.correctAnswers
    case EmotionField => r.emotion
    case CommentField => r.comment
  }

  /** `{ ...prev, [field]: value }`. */
  function WithField(r: FormRecord, f: Field, v: string): FormRecord {
    match f
    case SubjectField => r.(subject := v)
    case TotalField => r.(totalQuestions := v)
    case CorrectField => r.(correctAnswers := v)
    case EmotionField => r.(emotion := v)
    case CommentField => r.(comment := v)
  }

  /** An input change sets its own field and no other. */
  lemma WithFieldOnlyThat(r: FormRecord, f: Field, v: string, g: Field)
    ensures Get(WithField(r, f, v), g) == if g == f then v else Get(r, g)
  {
  }

  /** The selectable subjects (no aptitude test) and feelings of the component. */
  const FormSubjects: seq<string> := ["japanese", "math", "science", "social"]
  const FormEmotions: seq<string> := ["excellent", "normal", "difficult"]

  /**
   * The page's choices are the table's; the component's subjects are among
   * them, but of its feelings only "normal" is a value the table accepts.
   */
  lemma ChoicesAgainstTable()
    ensures PageSubjects == Schema.Subjects && PageEmotions == Schema.Emotions
    ensures forall s :: s in FormSubjects ==> s in Schema.Subjects
    ensures "aptitude" in Schema.Subjects && "aptitude" !in FormSubjects
    ensures forall e :: e in FormEmotions ==> (e in Schema.Emotions <==> e == "normal")
  {
  }

  /** The component's state. */
  class StudyRecordForm {
    var record: FormRecord
    var isSubmitting: bool
    var showSuccess: bool

    constructor ()
      ensures record == EmptyRecord && !isSubmitting && !showSuccess
    {
      record := EmptyRecord;
      isSubmitting := false;
      showSuccess := false;
    }

    /** `handleInputChange(field, value)`. */
    method HandleInputChange(f: Field, v: string)
      modifies this
      ensures record == WithField(old(record), f, v)
      ensures isSubmitting == old(isSubmitting) && showSuccess == old(showSuccess)
    {
      record := WithField(record, f, v);
    }

    /**
     * `handleSubmit` up to the success message: a refused submit alerts and
     * never starts submitting; an accepted one ends with submitting off and
     * the success message on, the record still filled in.
     */
    method HandleSubmit() returns (alert: Option<string>)
      modifies this
      ensures record == old(record)
      ensures var e := SubmitError(old(record).subject, old(record).totalQuestions, old(record).correctAnswers, old(record).emotion);
              (e.Some? ==> alert == e && isSubmitting == old(isSubmitting) && showSuccess == old(showSuccess))
              && (e.None? ==> alert.None? && !isSubmitting && showSuccess)
    {
      if record.subject == "" || record.totalQuestions == "" || record.correctAnswers == "" || record.emotion == "" {
        return Some(Required);
      }
      var total := Text.ParseInt(record.totalQuestions);
      var correct := Text.ParseInt(record.correctAnswers);
      if Exceeds(correct, total) {
        return Some(CorrectAboveTotal);
      }
      isSubmitting := true;
      // the simulated 1.5 s save runs here
      isSubmitting := false;
      showSuccess := true;
      alert := None;
    }

    /** The timer three seconds later: the message goes and the record is cleared. */
    method SuccessTimeout()
      modifies this
      ensures !showSuccess && record == EmptyRecord && isSubmitting == old(isSubmitting)
    {
      showSuccess := false;
      record := EmptyRecord;
    }
  }
}
