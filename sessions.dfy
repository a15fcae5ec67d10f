/**
 * Admin and relay sessions (`stateAdmin`, `pendingReplies`, `pendingSupport`) and the order in
 * which the message router consults them.
 */
module Sessions {
  import opened Wrappers
  import opened Ids
  import opened JsText
  import opened AdminConfig
  import opened Inbound
  import opened Questionnaire

  datatype AdminMode = AskInfo | SupportReply

  /** A `stateAdmin` entry; absent fields are the ones never set. */
  datatype AdminState = AdminState(
    mode: Option<AdminMode>,
    requestId: Option<RequestId>,
    userTelegramId: Option<TgId>,
    supportUserTelegramId: Option<TgId>)

  const NoAdminSession: AdminState := AdminState(None, None, None, None)

  /** `setAdminState`: `{ ...current, ...data }`. */
  function MergeAdmin(current: AdminState, data: AdminState): AdminState {
    AdminState(
      if data.mode.Some? then data.mode else current.mode,
      if data.requestId.Some? then data.requestId else current.requestId,
      if data.userTelegramId.Some? then data.userTelegramId else current.userTelegramId,
      if data.supportUserTelegramId.Some? then data.supportUserTelegramId else current.supportUserTelegramId)
  }

  /** A `pendingReplies` entry: who asked, about which request. */
  datatype PendingReply = PendingReply(adminId: TgId, requestId: Option<RequestId>)

  /** `/annulla` in any letter case, surrounded by any whitespace. */
  predicate IsCancelCommand(p: Payload) {
    TextOf(p).Some? && ToLower(Trim(TextOf(p).value)) == "/annulla"
  }

  /**
   * Every text that is `/annulla` up to the case of its letters is the cancel command: no
   * mixture of upper- and lower-case letters is missed.
   */
  lemma CancelInAnyCase(t: string)
    requires |t| == |"/annulla"| && forall i :: 0 <= i < |t| ==> LowerChar(t[i]) == "/annulla"[i]
    ensures IsCancelCommand(Text(t))
  {
    assert !IsSpace(t[0]) && !IsSpace(t[|t| - 1]);
    TrimOfTrimmed(t);
    assert ToLower(t) == "/annulla";
  }

  /** The question an admin's message carries: its text trimmed, nothing for a photo or a file. */
  function QuestionText(p: Payload): string {
    if p.Text? then Trim(p.text) else ""
  }

  /** The branch of the router that handles a message. */
  datatype Lane =
    | AdminCancel         // an admin's `/annulla`
    | AdminSupportAnswer  // an admin answering a support ticket
    | AdminQuestion       // an admin's question about a request
    | AdminIdle           // any other admin message: nothing happens
    | SupportTicket       // a user's first message after pressing Support
    | UserAnswer          // a user's answer to an admin's question
    | Answering           // a user filling in the questionnaire
    | UserIdle            // any other user message: nothing happens

  predicate IsAdminLane(l: Lane) {
    l.AdminCancel? || l.AdminSupportAnswer? || l.AdminQuestion? || l.AdminIdle?
  }

  /**
   * The router: admins first (`/annulla`, then a support answer, then a question); for users a
   * pending support ticket, then a pending answer when no step is active, then the questionnaire
   * when both a step and a request are set.
   */
  function Route(isAdmin: bool, a: AdminState, p: Payload, supportPending: bool, u: UserState,
                 reply: Option<PendingReply>): Lane
  {
    if isAdmin then
      if IsCancelCommand(p) then AdminCancel
      else if a.mode == Some(SupportReply) && Truthy(a.supportUserTelegramId) then AdminSupportAnswer
      else if a.mode == Some(AskInfo) && Truthy(a.userTelegramId) then AdminQuestion
      else AdminIdle
    else if supportPending then SupportTicket
    else if u.step.None? && reply.Some? && reply.value.adminId != 0 then UserAnswer
    else if u.step.Some? && u.requestId.Some? then Answering
    else UserIdle
  }

  /** An admin's message never reaches a user branch, and a user's never reaches an admin branch. */
  lemma AdminsAndUsersApart(isAdmin: bool, a: AdminState, p: Payload, supportPending: bool, u: UserState,
                            reply: Option<PendingReply>)
    ensures IsAdminLane(Route(isAdmin, a, p, supportPending, u, reply)) <==> isAdmin
  {
  }

  /** `/annulla` from an admin wins over every session. */
  lemma CancelFirst(a: AdminState, p: Payload, supportPending: bool, u: UserState, reply: Option<PendingReply>)
    requires IsCancelCommand(p)
    ensures Route(true, a, p, supportPending, u, reply) == AdminCancel
  {
  }

  /** A pending support ticket takes a user's next message, whatever else is going on. */
  lemma SupportTicketFirst(a: AdminState, p: Payload, u: UserState, reply: Option<PendingReply>)
    ensures Route(false, a, p, true, u, reply) == SupportTicket
  {
  }

  /** An answer to an admin is taken only from a user with no active step and an asking admin. */
  lemma AnswerNeedsIdleUser(isAdmin: bool, a: AdminState, p: Payload, supportPending: bool, u: UserState,
                            reply: Option<PendingReply>)
    ensures Route(isAdmin, a, p, supportPending, u, reply) == UserAnswer <==>
      !isAdmin && !supportPending && u.step.None? && reply.Some? && reply.value.adminId != 0
  {
  }

  /** The questionnaire gets a user's message exactly when no ticket is pending and a step and a request are set. */
  lemma QuestionnaireLast(isAdmin: bool, a: AdminState, p: Payload, supportPending: bool, u: UserState,
                          reply: Option<PendingReply>)
    ensures Route(isAdmin, a, p, supportPending, u, reply) == Answering <==>
      !isAdmin && !supportPending && u.step.Some? && u.requestId.Some?
  {
  }
}
