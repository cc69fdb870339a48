/**
 * The rows of the application's tables and the CHECK constraints the database
 * puts on them. Dates are day numbers (see `Dates`), timestamps are integers,
 * and codes that the screens pass through unchanged (subject, emotion, content
 * type, sender) stay strings, so an unknown code can be modelled.
 */
module Schema {
  import opened Wrappers

  /** A row of `study_records`. */
  datatype StudyRecord = StudyRecord(
    id: int,
    date: int,            // the day the record was written
    studyDate: int,       // the day the studied material belongs to
    subject: string,
    contentType: string,  // "class" or "homework"
    attemptNumber: int,
    questionsTotal: int,
    questionsCorrect: int,
    emotion: string,
    comment: Option<string>,
    studentId: Option<string>)

  /** A row of `feedbacks`. */
  datatype Feedback = Feedback(
    id: int,
    recordId: int,
    senderType: string,
    reactionType: Option<string>,
    message: Option<string>,
    createdAt: int)

  /** A row of `reflections`; its date is kept as the text the date picker yields. */
  datatype Reflection = Reflection(
    id: int,
    date: string,
    content: string,
    improvement: Option<string>,
    teacherComment: Option<string>)

  const Subjects: seq<string> := ["aptitude", "japanese", "math", "science", "social"]
  const Emotions: seq<string> := ["good", "normal", "hard"]
  const Senders: seq<string> := ["parent", "teacher"]
  const Reactions: seq<string> := ["clap", "thumbs", "muscle"]

  /** The CHECK constraints of `study_records`. */
  predicate ValidRecord(r: StudyRecord) {
    r.subject in Subjects
    && 1 <= r.questionsTotal <= 100
    && r.questionsCorrect >= 0
    && r.emotion in Emotions
    && (r.comment.Some? ==> |r.comment.value| <= 300)
    && r.questionsCorrect <= r.questionsTotal
  }

  /** `feedback_content_check`: one of the three allowed combinations of reaction and message. */
  predicate ContentCheck(f: Feedback) {
    (f.reactionType.Some? && f.message.None?)
    || (f.reactionType.None? && f.message.Some?)
    || (f.reactionType.Some? && f.message.Some?)
  }

  /** The CHECK constraints of `feedbacks`. */
  predicate ValidFeedback(f: Feedback) {
    f.senderType in Senders
    && (f.reactionType.Some? ==> f.reactionType.value in Reactions)
    && (f.message.Some? ==> |f.message.value| <= 500)
    && ContentCheck(f)
  }

  /** The three-way content constraint says no more than "a reaction or a message is present". */
  lemma ContentCheckIff(f: Feedback)
    ensures ContentCheck(f) <==> !(f.reactionType.None? && f.message.None?)
  {
  }

  /** Every row of a list satisfies the CHECK constraints of `study_records`. */
  predicate AllValid(rs: seq<StudyRecord>) {
    forall i :: 0 <= i < |rs| ==> ValidRecord(rs[i])
  }
}
