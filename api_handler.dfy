/**
 * The server route that asks the language model for messages
 * (`api/generate-messages.js`). The request body is parsed JSON; the model call
 * and `JSON.parse` of its reply are parameters, so every branch of the handler
 * can be stated: 405, 400, the forwarded `messages`, and the default triples.
 */
module ApiHandler {
  import opened Wrappers
  import opened Json
  import Messages

  /** `req.httpMethod` and `req.body` (`None` when there is no body at all). */
  datatype Request = Request(httpMethod: string, body: Option<Json>)

  /** The two system prompts the handler chooses between. */
  datatype Prompt = ParentPrompt | TeacherPrompt

  /**
   * The model call: it threw, or it answered with `choices[0]?.message?.content`
   * (`None` when that chain is `undefined` or `null`).
   */
  datatype Completion = CompletionThrew | Completed(content: Option<string>)

  /** The JSON the handler answers with. */
  datatype Body =
    | ErrorBody(error: string)
    | Forwarded(messages: Option<Json>)        // `{ messages: parsed.messages }`; `None` is `undefined`
    | Defaults(defaults: seq<Messages.PersonalizedMessage>)

  /** A response, or `Crashed` when the handler itself throws out of its `catch`. */
  datatype Response = Response(status: int, body: Body) | Crashed

  /** The system prompt for a `senderType`: the parent one exactly for the string "parent". */
  function SystemPromptFor(sender: Json): (p: Prompt)
    ensures p == ParentPrompt <==> sender == JStr("parent")
  {
    if sender == JStr("parent") then ParentPrompt else TeacherPrompt
  }

  /** `getDefaultMessages(senderType)` on whatever JSON value `senderType` is. */
  function DefaultsFor(sender: Json): seq<Messages.PersonalizedMessage> {
    Messages.DefaultMessages(if sender.JStr? then sender.s else "")
  }

  /** `const { studyData, studyHistory, senderType } = req.body`: `Failed` when the body is null or absent. */
  function Destructure(body: Option<Json>): (r: Result<(Option<Json>, Option<Json>, Option<Json>)>)
    ensures r.Failed? <==> (body.None? || body.value.JNull?)
  {
    if body.None? then Failed
    else match (Get(body.value, "studyData"), Get(body.value, "studyHistory"), Get(body.value, "senderType"))
      case (Ok(d), Ok(h), Ok(s)) => Ok((d, h, s))
      case _ => Failed
  }

  /** The reply once the parameters are known to be present: forward the parsed `messages` or fall back. */
  function Reply(sender: Json, content: Option<string>, parse: string -> Option<Json>): Response {
    if content.Some? && content.value != "" then
      match parse(content.value)
      case None => Response(200, Defaults(DefaultsFor(sender)))
      case Some(parsed) =>
        match Get(parsed, "messages")
        case Ok(m) => Response(200, Forwarded(m))
        case Failed => Response(200, Defaults(DefaultsFor(sender)))
    else Response(200, Defaults(DefaultsFor(sender)))
  }

  /**
   * `handler(req, res)`. `complete` answers the model call made with the chosen
   * system prompt; `parse` is `JSON.parse` (`None` when it throws).
   */
  function Handle(req: Request, complete: Prompt -> Completion, parse: string -> Option<Json>): (r: Response)
    ensures r.Crashed? <==> req.httpMethod == "POST" && (req.body.None? || req.body.value.JNull?)
    ensures r.Response? && r.body.ErrorBody? ==> r.status in {400, 405}
  {
    if req.httpMethod != "POST" then Response(405, ErrorBody("Method not allowed"))
    else
      match Destructure(req.body)
      case Failed => Crashed   // the catch reads `req.body.senderType` and throws again
      case Ok((d, h, s)) =>
        if !TruthyOpt(d) || !TruthyOpt(h) || !TruthyOpt(s) then
          Response(400, ErrorBody("Missing required parameters"))
        else
          match complete(SystemPromptFor(s.value))
          case CompletionThrew => Response(200, Defaults(DefaultsFor(s.value)))
          case Completed(content) => Reply(s.value, content, parse)
  }

  // ---------------------------------------------------------------------------
  // What the handler promises
  // ---------------------------------------------------------------------------

  /** Only POST is served. */
  lemma NonPostIs405(req: Request, complete: Prompt -> Completion, parse: string -> Option<Json>)
    requires req.httpMethod != "POST"
    ensures Handle(req, complete, parse) == Response(405, ErrorBody("Method not allowed"))
  {
  }

  /** The fields a request to the route carries, when it has an object body. */
  function Field(req: Request, key: string): Option<Json>
    requires req.body.Some? && req.body.value.JObj?
  {
    Lookup(req.body.value.fields, key)
  }

  /** A POST with an object body gets 400 exactly when one of the three parameters is missing or falsy. */
  lemma MissingParameterIs400(req: Request, complete: Prompt -> Completion, parse: string -> Option<Json>)
    requires req.httpMethod == "POST" && req.body.Some? && req.body.value.JObj?
    ensures Handle(req, complete, parse).Response? && (Handle(req, complete, parse).status == 400 <==>
              !TruthyOpt(Field(req, "studyData")) || !TruthyOpt(Field(req, "studyHistory")) || !TruthyOpt(Field(req, "senderType")))
  {
  }

  /**
   * Every request that passes the checks is answered with 200, whatever the model
   * does: a model call that throws gets the sender's default triple, and a reply
   * is handled by `Reply`.
   */
  lemma ValidRequestIs200(req: Request, complete: Prompt -> Completion, parse: string -> Option<Json>)
    requires req.httpMethod == "POST" && req.body.Some? && req.body.value.JObj?
    requires TruthyOpt(Field(req, "studyData")) && TruthyOpt(Field(req, "studyHistory")) && TruthyOpt(Field(req, "senderType"))
    ensures Handle(req, complete, parse).Response? && Handle(req, complete, parse).status == 200
    ensures var s := Field(req, "senderType").value;
            complete(SystemPromptFor(s)).CompletionThrew? ==>
              Handle(req, complete, parse) == Response(200, Defaults(DefaultsFor(s)))
    ensures var s := Field(req, "senderType").value;
            complete(SystemPromptFor(s)).Completed? ==>
              Handle(req, complete, parse) == Reply(s, complete(SystemPromptFor(s)).content, parse)
  {
    var s := Field(req, "senderType").value;
    match complete(SystemPromptFor(s))
    case CompletionThrew =>
    case Completed(content) =>
  }

  /**
   * The model's reply decides the body: parsed content forwards its `messages`
   * unchecked; missing or empty content, unparsable content or a `null` reply give
   * the default triple for the sender. A model call that throws never reaches
   * `Reply`; `ValidRequestIs200` states its answer.
   */
  lemma ReplyOutcomes(sender: Json, content: Option<string>, parse: string -> Option<Json>)
    ensures var r := Reply(sender, content, parse);
            r.Response? && r.status == 200
            && (r.body.Forwarded? <==>
                  (content.Some? && content.value != "" && parse(content.value).Some? && !parse(content.value).value.JNull?))
            && (r.body.Forwarded? ==> Get(parse(content.value).value, "messages") == Ok(r.body.messages))
            && (!r.body.Forwarded? ==> r.body == Defaults(DefaultsFor(sender)))
  {
  }

  /** The default triple the handler falls back to has the slot types the client's fallback has. */
  lemma DefaultsAreTyped(sender: Json)
    ensures |DefaultsFor(sender)| == 3
    ensures sender == JStr("parent") ==>
              forall i :: 0 <= i < 3 ==> (DefaultsFor(sender)[i].emoji, DefaultsFor(sender)[i].kind) == Messages.SlotTypes("parent")[i]
    ensures sender != JStr("parent") ==>
              forall i :: 0 <= i < 3 ==> (DefaultsFor(sender)[i].emoji, DefaultsFor(sender)[i].kind) == Messages.SlotTypes("teacher")[i]
  {
    if !sender.JStr? {
      assert DefaultsFor(sender) == Messages.DefaultMessages("teacher");
    } else if sender.s != "parent" {
      assert DefaultsFor(sender) == Messages.DefaultMessages("teacher");
    }
  }
}
