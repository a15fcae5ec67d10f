/**
 * What the bot sends: one constructor per message the handlers produce (their wording and
 * keyboards are not modelled), addressed to a chat.
 */
module Outbound {
  import opened Wrappers
  import opened Ids
  import opened JsText
  import opened Requests
  import opened Inbound
  import opened Questionnaire

  /** The part of a message a relay forwards. */
  datatype Content = TextContent(text: string) | PhotoContent(fileId: FileId) | DocumentContent(fileId: FileId)

  /**
   * What every relay forwards, checking in the order text, photo, document: the trimmed text,
   * the largest photo size, or the document; nothing when none is present.
   */
  function Forwarded(p: Payload): (c: Option<Content>)
    ensures c.Some? <==> TextOf(p).Some? || PhotoOf(p).Some? || DocumentOf(p).Some?
    ensures TextOf(p).Some? ==> c == Some(TextContent(Trim(p.text)))
    ensures PhotoOf(p).Some? ==> c == Some(PhotoContent(PhotoOf(p).value))
    ensures DocumentOf(p).Some? ==> c == Some(DocumentContent(p.fileId))
  {
    match TextOf(p)
    case Some(t) => Some(TextContent(Trim(t)))
    case None =>
      match PhotoOf(p)
      case Some(f) => Some(PhotoContent(f))
      case None =>
        match DocumentOf(p)
        case Some(f) => Some(DocumentContent(f))
        case None => None
  }

  /** A forwarded text that is blank once trimmed. */
  predicate BlankText(c: Option<Content>) {
    c.Some? && c.value.TextContent? && c.value.text == ""
  }

  /**
   * What a relay forwards, by kind of message: a text its trim, a photo its largest (last) size,
   * a document its file id; nothing exactly for an empty text, a photo without sizes or a
   * document without a file id. A blank forward is a non-empty text of white space only.
   */
  lemma ForwardedKinds(p: Payload)
    ensures Forwarded(p).None? <==>
      (p.Text? && p.text == "") || (p.Photo? && p.sizes == []) || (p.Document? && p.fileId == "")
    ensures p.Text? && p.text != "" ==> Forwarded(p) == Some(TextContent(Trim(p.text)))
    ensures p.Photo? && p.sizes != [] ==> Forwarded(p) == Some(PhotoContent(p.sizes[|p.sizes| - 1]))
    ensures p.Document? && p.fileId != "" ==> Forwarded(p) == Some(DocumentContent(p.fileId))
    ensures BlankText(Forwarded(p)) <==> p.Text? && p.text != "" && Trim(p.text) == ""
  {
  }

  datatype Message =
    // to users
    | Intro                                      // welcome text and the pre-approval menu
    | TemporaryError                             // /start could not register the user
    | FlowError                                  // START_FLOW failed
    | SupportPrompt                              // SUPPORT pressed: describe the problem
    | VipOnly                                    // referral features are locked before approval
    | ReferralStatus(code: string, count: nat, available: nat)
    | NoPrizeYet                                 // CLAIM_REWARD with no prize available
    | PrizeMenu(available: nat)
    | InvalidPrize
    | NotEnoughReferrals                         // PRIZE_ with a counter below 4
    | DecrementRefused                           // the decrement itself refused
    | PrizeGranted(prize: string, count: nat, available: nat)
    | ActionError                                // a store error inside a handler
    | Cancelled                                  // CANCEL_FLOW
    | SessionExpired                             // a questionnaire button without a request
    | StepPrompt(step: Step)                     // the prompt for the step just reached
    | OperatorChosen(operatorLabel: string)      // OP_ accepted; asks for the operator id
    | Reprompt(at: Step, reason: Rejection)
    | Summary(request: Request)                  // the recap shown at CONFIRM
    | UseButtons                                 // a message at CONFIRM: the buttons submit or edit
    | CompilationError                           // the questionnaire branch failed
    | SubmittedDone                              // the user's confirmation after SUBMIT
    | SubmitError
    | AccessGranted(link: string, singleUse: bool, code: string)
    | AccessRejected
    | AdminAsks(text: string)                    // an admin's question
    | SupportAnswer(content: Content)            // an admin's answer to a ticket
    | TicketReceived
    | AnswerForwarded
    | AnswerNotForwarded
    // to admins
    | NewRequest(requestId: RequestId, from: Sender, request: Request)
    | RequestScreenshot(requestId: RequestId, fileId: FileId)
    | TicketHeader(from: Sender)
    | TicketContent(user: TgId, content: Content)
    | PrizeClaim(prize: string, from: Sender, code: string, remaining: nat)
    | UserReply(about: Option<RequestId>, from: Sender, content: Content)
    | NotAuthorized
    | ApprovedDone(requestId: RequestId)
    | ApproveError(requestId: RequestId)
    | MissingChannelConfig
    | RejectedDone(requestId: RequestId)
    | RejectError(requestId: RequestId)
    | QuestionPrompt(requestId: RequestId)
    | AskError
    | SupportReplyPrompt(user: TgId)
    | AdminCancelled
    | AnswerNeedsContent
    | AnswerSent
    | AnswerFailed
    | QuestionNeedsText
    | QuestionSent
    | QuestionFailed

  datatype Outgoing = Outgoing(to: TgId, message: Message)

  /** The same message to every admin, in list order. */
  function Fanout(admins: seq<TgId>, m: Message): (out: seq<Outgoing>)
    ensures |out| == |admins|
    ensures forall i :: 0 <= i < |admins| ==> out[i] == Outgoing(admins[i], m)
  {
    seq(|admins|, i requires 0 <= i < |admins| => Outgoing(admins[i], m))
  }

  /** Sending to one more admin extends the fan-out by that admin's message. */
  lemma FanoutGrows(admins: seq<TgId>, i: nat, m: Message)
    requires i < |admins|
    ensures Fanout(admins[..i + 1], m) == Fanout(admins[..i], m) + [Outgoing(admins[i], m)]
  {
    var longer := Fanout(admins[..i + 1], m);
    assert forall k :: 0 <= k < i ==> longer[k] == Fanout(admins[..i], m)[k];
  }

  /** `req.screenshot_file_id` when it is truthy. */
  function ScreenshotOf(req: Request): Option<FileId> {
    if req.screenshotFileId.Some? && req.screenshotFileId.value != "" then req.screenshotFileId else None
  }

  /** What one admin receives about a new request: the summary, then the screenshot when there is one. */
  function AdminNotice(admin: TgId, id: RequestId, from: Sender, req: Request): seq<Outgoing> {
    [Outgoing(admin, NewRequest(id, from, req))]
      + (if ScreenshotOf(req).Some? then [Outgoing(admin, RequestScreenshot(id, ScreenshotOf(req).value))] else [])
  }

  /**
   * `notifyAdminsNewRequest`: to each admin in turn the summary with its controls, followed by
   * the screenshot when the request has one.
   */
  function NewRequestNotices(admins: seq<TgId>, id: RequestId, from: Sender, req: Request): (out: seq<Outgoing>)
    ensures |out| == |admins| * (if ScreenshotOf(req).Some? then 2 else 1)
    ensures forall i :: 0 <= i < |out| ==> out[i].to in admins
  {
    if admins == [] then [] else AdminNotice(admins[0], id, from, req) + NewRequestNotices(admins[1..], id, from, req)
  }

  /**
   * The k-th admin's block of the notices is exactly that admin's summary and screenshot: nothing
   * is sent to the wrong admin, skipped or reordered.
   */
  lemma {:induction false} NewRequestNoticesPerAdmin(admins: seq<TgId>, id: RequestId, from: Sender, req: Request, k: nat)
    requires k < |admins|
    ensures var m := if ScreenshotOf(req).Some? then 2 else 1;
      var out := NewRequestNotices(admins, id, from, req);
      m * k + m <= |out| && out[m * k..m * k + m] == AdminNotice(admins[k], id, from, req)
  {
    var m := if ScreenshotOf(req).Some? then 2 else 1;
    var head := AdminNotice(admins[0], id, from, req);
    var rest := NewRequestNotices(admins[1..], id, from, req);
    assert NewRequestNotices(admins, id, from, req) == head + rest;
    assert |head| == m;
    if k == 0 {
      assert (head + rest)[..m] == head;
    } else {
      NewRequestNoticesPerAdmin(admins[1..], id, from, req, k - 1);
      assert admins[1..][k - 1] == admins[k];
      assert m * k == m + m * (k - 1);
      assert (head + rest)[m * k..m * k + m] == rest[m * (k - 1)..m * (k - 1) + m];
    }
  }
}
