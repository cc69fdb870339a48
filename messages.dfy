/**
 * Encouragement messages for a study record (`src/lib/openai.ts`): the
 * template-based fallback used when the remote generator is unavailable, the
 * fixed default triples, and the orchestrator that tries the remote generator
 * first. The clock reading `Date.now()` and the outcome of the HTTP request are
 * parameters.
 */
module Messages {
  import opened Wrappers
  import Text
  import Lists
  import Percent
  import Json
  import ObjectLiteral

  /** The record the messages are about. */
  datatype StudyData = StudyData(
    subject: string,
    questionsTotal: int,
    questionsCorrect: int,
    emotion: string,
    comment: Option<string>,
    date: string)

  /** Correct and total answers summed over the records of one subject. */
  datatype Tally = Tally(correct: int, total: int)

  /** What the generator is told about the learner's recent history. */
  datatype StudyHistory = StudyHistory(
    recentRecords: seq<StudyData>,
    totalDays: int,
    continuationDays: int,
    subjectAccuracy: map<string, Tally>)

  /** One suggested message; `kind` is the message's `type` field. */
  datatype PersonalizedMessage = PersonalizedMessage(message: string, emoji: string, kind: string)

  // ---------------------------------------------------------------------------
  // Labels and the variant seed
  // ---------------------------------------------------------------------------

  const SubjectLabels: map<string, string> :=
    map["aptitude" := "適性", "japanese" := "国語", "math" := "算数", "science" := "理科", "social" := "社会"]

  /** `subjectMapping[code] || code`, read from the table's own keys. */
  function SubjectLabel(code: string): string {
    ObjectLiteral.OwnOr(SubjectLabels, code, code)
  }

  /**
   * The five subject codes get their Japanese names. Any other code is shown as
   * it is, except that the read as written answers a name every object inherits
   * with that inherited member, which is no string.
   */
  lemma SubjectLabelTable(code: string)
    ensures SubjectLabel("aptitude") == "適性" && SubjectLabel("japanese") == "国語"
    ensures SubjectLabel("math") == "算数" && SubjectLabel("science") == "理科"
    ensures SubjectLabel("social") == "社会"
    ensures code !in ["aptitude", "japanese", "math", "science", "social"] ==> SubjectLabel(code) == code
    ensures code !in ObjectLiteral.Inherited ==> ObjectLiteral.ReadOr(SubjectLabels, code, code) == ObjectLiteral.Str(SubjectLabel(code))
    ensures code in ObjectLiteral.Inherited ==> ObjectLiteral.ReadOr(SubjectLabels, code, code) == ObjectLiteral.InheritedMember(code)
  {
  }

  /** `${subject}_${date}_${correct}_${total}_${emotion}_${now}`. */
  function SeedString(d: StudyData, now: int): string {
    d.subject + "_" + d.date + "_" + Text.IntToString(d.questionsCorrect) + "_"
    + Text.IntToString(d.questionsTotal) + "_" + d.emotion + "_" + Text.IntToString(now)
  }

  function Abs(x: int): int {
    if x < 0 then -x else x
  }

  /** `Math.abs(sum of the seed's UTF-16 code units) % 100`. */
  function RandomIndex(seed: string): (r: int)
    ensures 0 <= r < 100
  {
    Abs(Lists.Sum(Text.Utf16(seed))) % 100
  }

  /** The three slots take variants `r % 4`, `(r + 1) % 4` and `(r + 2) % 4`: three different variants. */
  lemma SlotVariantsDistinct(r: int)
    requires 0 <= r
    ensures r % 4 != (r + 1) % 4 && (r + 1) % 4 != (r + 2) % 4 && r % 4 != (r + 2) % 4
    ensures 0 <= r % 4 < 4 && 0 <= (r + 1) % 4 < 4 && 0 <= (r + 2) % 4 < 4
  {
  }

  // ---------------------------------------------------------------------------
  // Templates (S = subject label, A = accuracy, C = correct, T = total, D = days)
  // ---------------------------------------------------------------------------

  function ParentEncouraging(s: string, a: string): seq<string> {
    [ s + a + "%、今日もよく頑張ったね😊",
      s + a + "%達成、素晴らしい努力だね😊",
      s + "で" + a + "%、本当によく頑張ってる😊",
      s + a + "%、継続する力が立派だね😊" ]
  }

  function ParentSpecific(s: string, c: string, t: string): seq<string> {
    [ s + t + "問中" + c + "問正解、成長してるね🎯",
      s + "で" + c + "/" + t + "問正解、力がついてる🎯",
      s + c + "問正解、確実に上達してるね🎯",
      s + "の" + c + "問正解、頑張りが実ってる🎯" ]
  }

  function ParentLoving(days: string): seq<string> {
    [ days + "日継続中、パパママも応援してるよ💝",
      days + "日も続けて、本当に頑張り屋さんだね💝",
      days + "日継続、その努力を誇らしく思うよ💝",
      days + "日間コツコツと、素晴らしい姿勢だね💝" ]
  }

  function TeacherEncouraging(s: string, a: string): seq<string> {
    [ s + a + "%、着実に力がついています📈",
      s + "で" + a + "%達成、順調な成長です📈",
      s + a + "%、確実にレベルアップしています📈",
      s + "の" + a + "%、基礎力が定着してきました📈" ]
  }

  function TeacherInstructional(s: string, c: string, t: string): seq<string> {
    [ s + t + "問中" + c + "問正解、素晴らしいです🎯",
      s + "で" + c + "/" + t + "問正解、理解が深まっています🎯",
      s + c + "問正解、学習効果が表れています🎯",
      s + "の" + c + "問正解、着実な進歩です🎯" ]
  }

  function TeacherMotivational(days: string): seq<string> {
    [ days + "日継続、この調子で次のステップへ💪",
      days + "日間の継続、継続力が素晴らしいです💪",
      days + "日続けて、学習習慣が定着していますね💪",
      days + "日継続中、この momentum を大切に💪" ]
  }

  /** The (emoji, type) of each slot for a sender: only "parent" gets the parent triple. */
  function SlotTypes(sender: string): seq<(string, string)> {
    if sender == "parent" then [("😊", "encouraging"), ("🎯", "specific_praise"), ("💝", "loving")]
    else [("📈", "encouraging"), ("🎯", "instructional"), ("💪", "motivational")]
  }

  /** `${accuracy}`: the text of `Math.round(correct / total * 100)`, `NaN` and infinities included. */
  function AccuracyText(d: StudyData): string {
    Percent.NumberText(Percent.Accuracy(d.questionsCorrect, d.questionsTotal))
  }

  /** `variants[i % variants.length]` for the four variants of a slot. */
  function Pick(variants: seq<string>, i: int): string
    requires |variants| == 4 && i >= 0
  {
    variants[i % 4]
  }

  /** The three message texts of the fallback, before the slot types are attached. */
  function FallbackTexts(d: StudyData, h: StudyHistory, sender: string, now: int): (r: seq<string>)
    ensures |r| == 3
  {
    var s := SubjectLabel(d.subject);
    var a := AccuracyText(d);
    var c := Text.IntToString(d.questionsCorrect);
    var t := Text.IntToString(d.questionsTotal);
    var days := Text.IntToString(h.continuationDays);
    var k := RandomIndex(SeedString(d, now));
    if sender == "parent" then
      [Pick(ParentEncouraging(s, a), k), Pick(ParentSpecific(s, c, t), k + 1), Pick(ParentLoving(days), k + 2)]
    else
      [Pick(TeacherEncouraging(s, a), k), Pick(TeacherInstructional(s, c, t), k + 1), Pick(TeacherMotivational(days), k + 2)]
  }

  /** Attaches the sender's (emoji, type) slots to three texts. */
  function WithSlots(texts: seq<string>, sender: string): (r: seq<PersonalizedMessage>)
    requires |texts| == 3
    ensures |r| == 3
    ensures forall i :: 0 <= i < 3 ==> r[i].message == texts[i] && (r[i].emoji, r[i].kind) == SlotTypes(sender)[i]
  {
    var slots := SlotTypes(sender);
    [ PersonalizedMessage(texts[0], slots[0].0, slots[0].1),
      PersonalizedMessage(texts[1], slots[1].0, slots[1].1),
      PersonalizedMessage(texts[2], slots[2].0, slots[2].1) ]
  }

  /** `getPersonalizedFallbackMessages(studyData, studyHistory, senderType)` at clock reading `now`. */
  function FallbackMessages(d: StudyData, h: StudyHistory, sender: string, now: int): (r: seq<PersonalizedMessage>)
    ensures |r| == 3
    ensures forall i :: 0 <= i < 3 ==> (r[i].emoji, r[i].kind) == SlotTypes(sender)[i]
  {
    WithSlots(FallbackTexts(d, h, sender, now), sender)
  }

  /** `getDefaultMessages(senderType)`: fixed texts with the same slot types as the fallback. */
  function DefaultMessages(sender: string): (r: seq<PersonalizedMessage>)
    ensures |r| == 3
    ensures forall i :: 0 <= i < 3 ==> (r[i].emoji, r[i].kind) == SlotTypes(sender)[i]
  {
    if sender == "parent" then
      [ PersonalizedMessage("今日もよく頑張ったね！😊", "😊", "encouraging"),
        PersonalizedMessage("コツコツ続ける姿が素晴らしい🎯", "🎯", "specific_praise"),
        PersonalizedMessage("パパママも応援してるよ💝", "💝", "loving") ]
    else
      [ PersonalizedMessage("着実に力がついています📈", "📈", "encouraging"),
        PersonalizedMessage("この調子で継続しましょう🎯", "🎯", "instructional"),
        PersonalizedMessage("次のステップに進みましょう💪", "💪", "motivational") ]
  }

  // ---------------------------------------------------------------------------
  // What the fallback messages say
  // ---------------------------------------------------------------------------

  lemma StartsWithAppend(a: string, b: string)
    ensures Text.StartsWith(a + b, a)
  {
    assert (a + b)[..|a|] == a;
  }

  // The templates are concatenations of a few shapes; each lemma below covers one shape,
  // with `s` the subject label and `x` the number the message states.

  lemma ShapeSX(s: string, x: string, rest: string)
    ensures Text.StartsWith(s + x + rest, s) && Text.Contains(s + x + rest, x)
  {
    assert s + x + rest == s + (x + rest);
    StartsWithAppend(s, x + rest);
    Text.ContainsMiddle(s, x, rest);
  }

  lemma ShapeSMX(s: string, m: string, x: string, rest: string)
    ensures Text.StartsWith(s + m + x + rest, s) && Text.Contains(s + m + x + rest, x)
  {
    assert s + m + x + rest == s + (m + x + rest);
    StartsWithAppend(s, m + x + rest);
    Text.ContainsMiddle(s + m, x, rest);
  }

  lemma ShapeSTMX(s: string, t: string, m: string, x: string, rest: string)
    ensures Text.StartsWith(s + t + m + x + rest, s) && Text.Contains(s + t + m + x + rest, x)
  {
    assert s + t + m + x + rest == s + (t + m + x + rest);
    StartsWithAppend(s, t + m + x + rest);
    Text.ContainsMiddle(s + t + m, x, rest);
  }

  lemma ShapeSMXRRR(s: string, m: string, x: string, r1: string, r2: string, r3: string)
    ensures Text.StartsWith(s + m + x + r1 + r2 + r3, s) && Text.Contains(s + m + x + r1 + r2 + r3, x)
  {
    assert s + m + x + r1 + r2 + r3 == s + (m + x + r1 + r2 + r3);
    assert s + m + x + r1 + r2 + r3 == (s + m) + x + (r1 + r2 + r3);
    StartsWithAppend(s, m + x + r1 + r2 + r3);
    Text.ContainsMiddle(s + m, x, r1 + r2 + r3);
  }

  /** Every parent encouraging variant begins with the subject label and states the accuracy. */
  lemma ParentEncouragingMentions(s: string, a: string)
    ensures forall i :: 0 <= i < 4 ==> Text.StartsWith(ParentEncouraging(s, a)[i], s) && Text.Contains(ParentEncouraging(s, a)[i], a)
  {
    ShapeSX(s, a, "%、今日もよく頑張ったね😊");
    ShapeSX(s, a, "%達成、素晴らしい努力だね😊");
    ShapeSMX(s, "で", a, "%、本当によく頑張ってる😊");
    ShapeSX(s, a, "%、継続する力が立派だね😊");
  }

  /** Every teacher encouraging variant begins with the subject label and states the accuracy. */
  lemma TeacherEncouragingMentions(s: string, a: string)
    ensures forall i :: 0 <= i < 4 ==> Text.StartsWith(TeacherEncouraging(s, a)[i], s) && Text.Contains(TeacherEncouraging(s, a)[i], a)
  {
    ShapeSX(s, a, "%、着実に力がついています📈");
    ShapeSMX(s, "で", a, "%達成、順調な成長です📈");
    ShapeSX(s, a, "%、確実にレベルアップしています📈");
    ShapeSMX(s, "の", a, "%、基礎力が定着してきました📈");
  }

  /** Every parent praise variant begins with the subject label and states the correct count. */
  lemma ParentSpecificMentions(s: string, c: string, t: string)
    ensures forall i :: 0 <= i < 4 ==> Text.StartsWith(ParentSpecific(s, c, t)[i], s) && Text.Contains(ParentSpecific(s, c, t)[i], c)
  {
    ShapeSTMX(s, t, "問中", c, "問正解、成長してるね🎯");
    ShapeSMXRRR(s, "で", c, "/", t, "問正解、力がついてる🎯");
    ShapeSX(s, c, "問正解、確実に上達してるね🎯");
    ShapeSMX(s, "の", c, "問正解、頑張りが実ってる🎯");
  }

  /** Every teacher instructional variant begins with the subject label and states the correct count. */
  lemma TeacherInstructionalMentions(s: string, c: string, t: string)
    ensures forall i :: 0 <= i < 4 ==> Text.StartsWith(TeacherInstructional(s, c, t)[i], s) && Text.Contains(TeacherInstructional(s, c, t)[i], c)
  {
    ShapeSTMX(s, t, "問中", c, "問正解、素晴らしいです🎯");
    ShapeSMXRRR(s, "で", c, "/", t, "問正解、理解が深まっています🎯");
    ShapeSX(s, c, "問正解、学習効果が表れています🎯");
    ShapeSMX(s, "の", c, "問正解、着実な進歩です🎯");
  }

  /** Every third-slot variant begins with the number of continuation days followed by 日. */
  lemma DaysMentions(days: string)
    ensures forall i :: 0 <= i < 4 ==> Text.StartsWith(ParentLoving(days)[i], days + "日")
    ensures forall i :: 0 <= i < 4 ==> Text.StartsWith(TeacherMotivational(days)[i], days + "日")
  {
    var p := days + "日";
    StartsWithAppend(p, "継続中、パパママも応援してるよ💝");
    StartsWithAppend(p, "も続けて、本当に頑張り屋さんだね💝");
    StartsWithAppend(p, "継続、その努力を誇らしく思うよ💝");
    StartsWithAppend(p, "間コツコツと、素晴らしい姿勢だね💝");
    StartsWithAppend(p, "継続、この調子で次のステップへ💪");
    StartsWithAppend(p, "間の継続、継続力が素晴らしいです💪");
    StartsWithAppend(p, "続けて、学習習慣が定着していますね💪");
    StartsWithAppend(p, "継続中、この momentum を大切に💪");
  }

  /** What each fallback text states, for either sender. */
  lemma FallbackTextsMention(d: StudyData, h: StudyHistory, sender: string, now: int)
    ensures var r := FallbackTexts(d, h, sender, now);
            var s := SubjectLabel(d.subject);
            Text.StartsWith(r[0], s) && Text.Contains(r[0], AccuracyText(d))
            && Text.StartsWith(r[1], s) && Text.Contains(r[1], Text.IntToString(d.questionsCorrect))
            && Text.StartsWith(r[2], Text.IntToString(h.continuationDays) + "日")
  {
    var s := SubjectLabel(d.subject);
    var a := AccuracyText(d);
    var c := Text.IntToString(d.questionsCorrect);
    var t := Text.IntToString(d.questionsTotal);
    var days := Text.IntToString(h.continuationDays);
    var k := RandomIndex(SeedString(d, now));
    DaysMentions(days);
    if sender == "parent" {
      ParentEncouragingMentions(s, a);
      ParentSpecificMentions(s, c, t);
    } else {
      TeacherEncouragingMentions(s, a);
      TeacherInstructionalMentions(s, c, t);
    }
  }

  /**
   * The first message begins with the subject label and states the accuracy; the second
   * begins with the label and states the correct count; the third begins with the number
   * of continuation days followed by 日.
   */
  lemma FallbackMentions(d: StudyData, h: StudyHistory, sender: string, now: int)
    ensures var r := FallbackMessages(d, h, sender, now);
            var s := SubjectLabel(d.subject);
            Text.StartsWith(r[0].message, s) && Text.Contains(r[0].message, AccuracyText(d))
            && Text.StartsWith(r[1].message, s) && Text.Contains(r[1].message, Text.IntToString(d.questionsCorrect))
            && Text.StartsWith(r[2].message, Text.IntToString(h.continuationDays) + "日")
  {
    FallbackTextsMention(d, h, sender, now);
    var r := FallbackMessages(d, h, sender, now);
    var texts := FallbackTexts(d, h, sender, now);
    assert r[0].message == texts[0] && r[1].message == texts[1] && r[2].message == texts[2];
  }

  // ---------------------------------------------------------------------------
  // The orchestrator
  // ---------------------------------------------------------------------------

  /**
   * What the POST to the generator route came back with: it threw (network error,
   * abort), or it answered with an ok flag and a body that `response.json()` either
   * parsed (`Some`) or failed on (`None`).
   */
  datatype FetchOutcome = FetchThrew | Replied(ok: bool, body: Option<Json.Json>)

  /**
   * The value `generatePersonalizedMessages` resolves to: whatever the server sent as
   * `messages` (unchecked, possibly `undefined`), or locally built messages.
   */
  datatype Generated = FromServer(reply: Option<Json.Json>) | Local(messages: seq<PersonalizedMessage>)

  /** The request reached the generator and its reply could be read. */
  predicate ReplyUsable(fetch: FetchOutcome) {
    fetch.Replied? && fetch.ok && fetch.body.Some? && !fetch.body.value.JNull?
  }

  /** `generatePersonalizedMessages(studyData, studyHistory, senderType)`. */
  function GeneratePersonalizedMessages(d: StudyData, h: StudyHistory, sender: string, fetch: FetchOutcome, now: int): (r: Generated)
    ensures r.Local? <==> !ReplyUsable(fetch)
    ensures r.Local? ==> r.messages == FallbackMessages(d, h, sender, now)
    ensures r.FromServer? ==> Json.Get(fetch.body.value, "messages") == Ok(r.reply)
  {
    match fetch
    case FetchThrew => Local(FallbackMessages(d, h, sender, now))
    case Replied(ok, body) =>
      if !ok || body.None? then Local(FallbackMessages(d, h, sender, now))
      else
        match Json.Get(body.value, "messages")
        case Failed => Local(FallbackMessages(d, h, sender, now))
        case Ok(m) => FromServer(m)
  }

  /** Whatever goes wrong, three messages with the sender's slot types come back. */
  lemma FailureGivesThreeTypedMessages(d: StudyData, h: StudyHistory, sender: string, fetch: FetchOutcome, now: int)
    requires !ReplyUsable(fetch)
    ensures var r := GeneratePersonalizedMessages(d, h, sender, fetch, now);
            r.Local? && |r.messages| == 3
            && r.messages[0].kind == "encouraging"
            && (sender == "parent" ==> r.messages[1].kind == "specific_praise" && r.messages[2].kind == "loving")
            && (sender != "parent" ==> r.messages[1].kind == "instructional" && r.messages[2].kind == "motivational")
  {
    var r := GeneratePersonalizedMessages(d, h, sender, fetch, now);
    assert (r.messages[1].emoji, r.messages[1].kind) == SlotTypes(sender)[1];
    assert (r.messages[2].emoji, r.messages[2].kind) == SlotTypes(sender)[2];
    assert (r.messages[0].emoji, r.messages[0].kind) == SlotTypes(sender)[0];
  }
}
