/**
 * The message panel of a study record (`src/components/PersonalizedFeedback.tsx`):
 * it loads the learner's history, asks the generator for messages and, when
 * loading the history fails, builds messages locally from the record alone.
 * The component's own copy of the template fallback is the same function as
 * `Messages.FallbackMessages`.
 */
module PersonalizedFeedback {
  import opened Wrappers
  import Text
  import opened Messages
  import ObjectLiteral

  /** The history made from the current record alone, used when the real one cannot be loaded. */
  function DirectFallbackHistory(d: StudyData): (h: StudyHistory)
    ensures h.recentRecords == [d] && h.totalDays == 1 && h.continuationDays == 1
    ensures h.subjectAccuracy.Keys == {d.subject}
    ensures h.subjectAccuracy[d.subject] == Tally(d.questionsCorrect, d.questionsTotal)
  {
    StudyHistory([d], 1, 1, map[d.subject := Tally(d.questionsCorrect, d.questionsTotal)])
  }

  const GenerationFailed: string := "メッセージの生成に失敗しました"

  /** With the one-record history, the third message speaks of a single day. */
  lemma DirectFallbackSaysOneDay(d: StudyData, sender: string, now: int)
    ensures Text.StartsWith(FallbackMessages(d, DirectFallbackHistory(d), sender, now)[2].message, "1日")
  {
    var h := DirectFallbackHistory(d);
    var m := FallbackMessages(d, h, sender, now)[2].message;
    assert Text.StartsWith(m, Text.IntToString(h.continuationDays) + "日") by {
      FallbackMentions(d, h, sender, now);
    }
    assert Text.IntToString(h.continuationDays) + "日" == "1日" by {
      assert Text.IntToString(1) == "1";
    }
  }

  /** The panel's state: the messages shown, the loading flag and the error text. */
  class FeedbackPanel {
    var messages: Generated
    var loading: bool
    var error: Option<string>

    constructor ()
      ensures messages == Local([]) && !loading && error == None
    {
      messages := Local([]);
      loading := false;
      error := None;
    }

    /**
     * `loadPersonalizedMessages()`: `history` is what `getStudyHistory(recordId)`
     * yielded (`Failed` when it threw), `fetch` the outcome of the generator request
     * and `now` the clock reading the fallback's seed uses.
     */
    method LoadPersonalizedMessages(d: StudyData, sender: string, history: Result<StudyHistory>, fetch: FetchOutcome, now: int)
      modifies this
      ensures !loading
      ensures error.Some? <==> history.Failed?
      ensures history.Failed? ==> error == Some(GenerationFailed)
                                  && messages == Local(FallbackMessages(d, DirectFallbackHistory(d), sender, now))
      ensures history.Ok? ==> messages == GeneratePersonalizedMessages(d, history.value, sender, fetch, now)
    {
      loading := true;
      error := None;
      match history {
        case Ok(h) =>
          messages := GeneratePersonalizedMessages(d, h, sender, fetch, now);
        case Failed =>
          error := Some(GenerationFailed);
          messages := Local(FallbackMessages(d, DirectFallbackHistory(d), sender, now));
      }
      loading := false;
    }
  }

  /** Even when the error is shown, three messages with the sender's slot types are shown with it. */
  lemma ErrorStillShowsThreeMessages(d: StudyData, sender: string, now: int)
    ensures var ms := FallbackMessages(d, DirectFallbackHistory(d), sender, now);
            |ms| == 3 && ms[0].kind == "encouraging"
            && ms[1].kind == (if sender == "parent" then "specific_praise" else "instructional")
            && ms[2].kind == (if sender == "parent" then "loving" else "motivational")
  {
    var ms := FallbackMessages(d, DirectFallbackHistory(d), sender, now);
    assert (ms[0].emoji, ms[0].kind) == SlotTypes(sender)[0];
    assert (ms[1].emoji, ms[1].kind) == SlotTypes(sender)[1];
    assert (ms[2].emoji, ms[2].kind) == SlotTypes(sender)[2];
  }

  const MessageTypes: seq<string> := ["encouraging", "specific_praise", "motivational", "loving", "instructional"]

  const TypeColors: map<string, string> := map[
    "encouraging" := "bg-green-100 text-green-700",
    "specific_praise" := "bg-blue-100 text-blue-700",
    "motivational" := "bg-red-100 text-red-700",
    "loving" := "bg-pink-100 text-pink-700",
    "instructional" := "bg-purple-100 text-purple-700"]

  const TypeLabels: map<string, string> := map[
    "encouraging" := "励まし",
    "specific_praise" := "具体的称賛",
    "motivational" := "動機付け",
    "loving" := "愛情表現",
    "instructional" := "指導的"]

  const DefaultColor: string := "bg-gray-100 text-gray-700"

  /** `getTypeColor(type)`, read from the table's own keys. */
  function TypeColor(kind: string): string {
    ObjectLiteral.OwnOr(TypeColors, kind, DefaultColor)
  }

  /** `getTypeLabel(type)`, read from the table's own keys. */
  function TypeLabel(kind: string): string {
    ObjectLiteral.OwnOr(TypeLabels, kind, kind)
  }

  /**
   * Each of the five types has its own colour, none of them gray; any other type
   * is gray. The read as written agrees, except that it answers a name every
   * object inherits with that inherited member instead of a colour.
   */
  lemma TypeColorCases(kind: string)
    ensures forall i, j :: 0 <= i < j < 5 ==> TypeColor(MessageTypes[i]) != TypeColor(MessageTypes[j])
    ensures forall i :: 0 <= i < 5 ==> TypeColor(MessageTypes[i]) != DefaultColor
    ensures kind !in MessageTypes ==> TypeColor(kind) == DefaultColor
    ensures kind !in ObjectLiteral.Inherited ==> ObjectLiteral.ReadOr(TypeColors, kind, DefaultColor) == ObjectLiteral.Str(TypeColor(kind))
    ensures kind in ObjectLiteral.Inherited ==> ObjectLiteral.ReadOr(TypeColors, kind, DefaultColor) == ObjectLiteral.InheritedMember(kind)
  {
  }

  /**
   * Each of the five types has its own label, none equal to a type name; any
   * other type is shown as it is. The read as written agrees, except that it
   * answers a name every object inherits with that inherited member.
   */
  lemma TypeLabelCases(kind: string)
    ensures forall i, j :: 0 <= i < j < 5 ==> TypeLabel(MessageTypes[i]) != TypeLabel(MessageTypes[j])
    ensures forall i, j :: 0 <= i < 5 && 0 <= j < 5 ==> TypeLabel(MessageTypes[i]) != MessageTypes[j]
    ensures kind !in MessageTypes ==> TypeLabel(kind) == kind
    ensures kind !in ObjectLiteral.Inherited ==> ObjectLiteral.ReadOr(TypeLabels, kind, kind) == ObjectLiteral.Str(TypeLabel(kind))
    ensures kind in ObjectLiteral.Inherited ==> ObjectLiteral.ReadOr(TypeLabels, kind, kind) == ObjectLiteral.InheritedMember(kind)
  {
  }

  /**
   * A reply whose message type is `__proto__` gets no string from either table
   * as written: `Object.prototype` itself, which React cannot render. The
   * own-key reads give the type itself and gray.
   */
  lemma ProtoTypeAsWritten()
    ensures !ObjectLiteral.ReadOr(TypeLabels, "__proto__", "__proto__").Str?
    ensures !ObjectLiteral.ReadOr(TypeColors, "__proto__", DefaultColor).Str?
    ensures TypeLabel("__proto__") == "__proto__" && TypeColor("__proto__") == DefaultColor
  {
    assert "__proto__" in ObjectLiteral.Inherited;
  }

  /** Every type a generated message can carry gets a label and colour of its own. */
  lemma SlotTypesAreKnown(sender: string)
    ensures forall i :: 0 <= i < 3 ==> SlotTypes(sender)[i].1 in MessageTypes
  {
  }
}
